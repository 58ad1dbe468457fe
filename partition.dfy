/**
 * The two building blocks that every entity diff of the schema package is made of:
 * a first-match lookup by name (`get_column`, `get_index`, `get_constraint`,
 * `get_column_by_position`) and the four-way partition of two item lists
 * (same / changed / only in the left list / only in the right list).
 */
module Partition {
  import opened Wrappers

  /** The index of the first item whose key is `k`, or `|items|` when there is none. */
  function FirstIndex<T, K(==)>(items: seq<T>, key: T -> K, k: K): (i: nat)
    ensures i <= |items|
    ensures forall j :: 0 <= j < i ==> key(items[j]) != k
    ensures i < |items| ==> key(items[i]) == k
  {
    if items == [] then 0
    else if key(items[0]) == k then 0
    else 1 + FirstIndex(items[1..], key, k)
  }

  /** The first item of `items` whose key is `k`. */
  function Lookup<T, K(==)>(items: seq<T>, key: T -> K, k: K): Option<T> {
    var i := FirstIndex(items, key, k);
    if i < |items| then Some(items[i]) else None
  }

  lemma LookupNone<T, K>(items: seq<T>, key: T -> K, k: K)
    ensures Lookup(items, key, k).None? <==> forall j :: 0 <= j < |items| ==> key(items[j]) != k
  {
  }

  /**
   * The scanning loop with early exit used by `get_column`, `get_index`,
   * `get_constraint` and `get_column_by_position`.
   */
  method FindFirst<T, K(==)>(items: seq<T>, key: T -> K, k: K) returns (r: Option<T>)
    ensures r == Lookup(items, key, k)
    ensures r.None? <==> forall j :: 0 <= j < |items| ==> key(items[j]) != k
    ensures r.Some? ==> exists i :: 0 <= i < |items| && items[i] == r.value
                                && key(items[i]) == k
                                && forall j :: 0 <= j < i ==> key(items[j]) != k
  {
    var i := 0;
    while i < |items|
      invariant 0 <= i <= |items|
      invariant forall j :: 0 <= j < i ==> key(items[j]) != k
    {
      if key(items[i]) == k {
        assert FirstIndex(items, key, k) == i by { FirstIndexIs(items, key, k, i); }
        return Some(items[i]);
      }
      i := i + 1;
    }
    assert FirstIndex(items, key, k) == |items| by { FirstIndexIs(items, key, k, |items|); }
    r := None;
  }

  lemma FirstIndexIs<T, K>(items: seq<T>, key: T -> K, k: K, i: nat)
    requires i <= |items|
    requires forall j :: 0 <= j < i ==> key(items[j]) != k
    requires i < |items| ==> key(items[i]) == k
    ensures FirstIndex(items, key, k) == i
  {
  }

  /** Appending an item changes a lookup only when no earlier item had the key. */
  lemma LookupAppend<T, K>(items: seq<T>, x: T, key: T -> K, k: K)
    ensures Lookup(items + [x], key, k)
         == if Lookup(items, key, k).Some? then Lookup(items, key, k)
            else if key(x) == k then Some(x) else None
  {
    var i := FirstIndex(items, key, k);
    var s := items + [x];
    assert forall j :: 0 <= j < |items| ==> s[j] == items[j];
    if i < |items| {
      FirstIndexIs(s, key, k, i);
    } else if key(x) == k {
      FirstIndexIs(s, key, k, |items|);
    } else {
      FirstIndexIs(s, key, k, |s|);
    }
  }

  /** A lookup in a concatenation finds the first list's match, or else the second's. */
  lemma LookupConcat<T, K>(a: seq<T>, b: seq<T>, key: T -> K, k: K)
    ensures Lookup(a + b, key, k) == if Lookup(a, key, k).Some? then Lookup(a, key, k) else Lookup(b, key, k)
  {
    var s := a + b;
    assert forall j :: 0 <= j < |a| ==> s[j] == a[j];
    assert forall j :: 0 <= j < |b| ==> s[|a| + j] == b[j];
    var i := FirstIndex(a, key, k);
    if i < |a| {
      FirstIndexIs(s, key, k, i);
    } else {
      var j := FirstIndex(b, key, k);
      forall m | 0 <= m < |a| + j ensures key(s[m]) != k {
        if m >= |a| { assert s[m] == b[m - |a|]; }
      }
      FirstIndexIs(s, key, k, |a| + j);
    }
  }

  /** The result of a diff: the left-hand items in three buckets, plus the unmatched right-hand items. */
  datatype Partition<T> = Partition(same: seq<T>, changed: seq<T>, onlyLeft: seq<T>, onlyRight: seq<T>)

  datatype Bucket = Same | Changed | OnlyLeft

  /** The bucket of a left-hand item: no right item of that name, a matching one, or a differing one. */
  function BucketOf<T, K(==)>(x: T, right: seq<T>, key: T -> K, matches: (T, T) -> bool): Bucket {
    match Lookup(right, key, key(x))
    case None => OnlyLeft
    case Some(y) => if matches(x, y) then Same else Changed
  }

  /** The items of `left` that fall into bucket `b`, in the order of `left`. */
  function Select<T, K(==)>(left: seq<T>, right: seq<T>, key: T -> K, matches: (T, T) -> bool, b: Bucket): seq<T>
    decreases |left|
  {
    if left == [] then []
    else
      var init := Select(left[..|left| - 1], right, key, matches, b);
      if BucketOf(left[|left| - 1], right, key, matches) == b then init + [left[|left| - 1]] else init
  }

  /** The whole partition as the two loops of `Table.diff_columns` compute it. */
  function Spec<T, K(==)>(left: seq<T>, right: seq<T>, key: T -> K, matches: (T, T) -> bool): Partition<T> {
    Partition(Select(left, right, key, matches, Same),
              Select(left, right, key, matches, Changed),
              Select(left, right, key, matches, OnlyLeft),
              Select(right, left, key, matches, OnlyLeft))
  }

  /**
   * The loops of `diff_columns`, `diff_indexes`, `diff_constraints` and
   * `Index.diff_columns`: every left item is looked up by exact key in the right
   * list, then every right item in the left list.
   */
  method DiffByName<T, K(==)>(left: seq<T>, right: seq<T>, key: T -> K, matches: (T, T) -> bool)
    returns (p: Partition<T>)
    ensures p == Spec(left, right, key, matches)
  {
    var same, changed, only1, only2 := [], [], [], [];
    var i := 0;
    while i < |left|
      invariant 0 <= i <= |left|
      invariant same == Select(left[..i], right, key, matches, Same)
      invariant changed == Select(left[..i], right, key, matches, Changed)
      invariant only1 == Select(left[..i], right, key, matches, OnlyLeft)
    {
      var x := left[i];
      var y := FindFirst(right, key, key(x));
      if y.None? {
        only1 := only1 + [x];
      } else if matches(x, y.value) {
        same := same + [x];
      } else {
        changed := changed + [x];
      }
      assert left[..i + 1][..i] == left[..i];
      i := i + 1;
    }
    assert left[..i] == left;
    var j := 0;
    while j < |right|
      invariant 0 <= j <= |right|
      invariant only2 == Select(right[..j], left, key, matches, OnlyLeft)
    {
      var x := FindFirst(left, key, key(right[j]));
      if x.None? {
        only2 := only2 + [right[j]];
      }
      assert right[..j + 1][..j] == right[..j];
      j := j + 1;
    }
    assert right[..j] == right;
    p := Partition(same, changed, only1, only2);
  }

  /** An item is in the selection for `b` exactly when it is a left item whose bucket is `b`. */
  lemma {:induction false} SelectMember<T, K>(left: seq<T>, right: seq<T>, key: T -> K, matches: (T, T) -> bool, b: Bucket, x: T)
    ensures x in Select(left, right, key, matches, b) <==> x in left && BucketOf(x, right, key, matches) == b
    decreases |left|
  {
    if left != [] {
      var init := left[..|left| - 1];
      SelectMember(init, right, key, matches, b, x);
      assert left == init + [left[|left| - 1]];
    }
  }

  /** The three left-hand buckets together hold every left item exactly once. */
  lemma {:induction false} SelectCovers<T, K>(left: seq<T>, right: seq<T>, key: T -> K, matches: (T, T) -> bool)
    ensures multiset(Select(left, right, key, matches, Same))
          + multiset(Select(left, right, key, matches, Changed))
          + multiset(Select(left, right, key, matches, OnlyLeft)) == multiset(left)
    ensures |Select(left, right, key, matches, Same)| + |Select(left, right, key, matches, Changed)|
          + |Select(left, right, key, matches, OnlyLeft)| == |left|
    decreases |left|
  {
    if left != [] {
      var init, x := left[..|left| - 1], left[|left| - 1];
      SelectCovers(init, right, key, matches);
      assert left == init + [x];
      assert multiset(left) == multiset(init) + multiset{x};
      var s, c, o := Select(init, right, key, matches, Same), Select(init, right, key, matches, Changed),
                     Select(init, right, key, matches, OnlyLeft);
      match BucketOf(x, right, key, matches)
      case Same => assert Select(left, right, key, matches, Same) == s + [x];
      case Changed => assert Select(left, right, key, matches, Changed) == c + [x];
      case OnlyLeft => assert Select(left, right, key, matches, OnlyLeft) == o + [x];
    }
  }

  /** Which items are "only left" does not depend on how matched items are compared. */
  lemma {:induction false} OnlyLeftIgnoresMatch<T, K>(left: seq<T>, right: seq<T>, key: T -> K, m1: (T, T) -> bool, m2: (T, T) -> bool)
    ensures Select(left, right, key, m1, OnlyLeft) == Select(left, right, key, m2, OnlyLeft)
    decreases |left|
  {
    if left != [] {
      OnlyLeftIgnoresMatch(left[..|left| - 1], right, key, m1, m2);
    }
  }

  /** Swapping the two lists swaps the only-left and only-right buckets. */
  lemma SwapSwapsOnly<T, K>(left: seq<T>, right: seq<T>, key: T -> K, matches: (T, T) -> bool, flipped: (T, T) -> bool)
    ensures Spec(right, left, key, flipped).onlyLeft == Spec(left, right, key, matches).onlyRight
    ensures Spec(right, left, key, flipped).onlyRight == Spec(left, right, key, matches).onlyLeft
  {
    OnlyLeftIgnoresMatch(right, left, key, flipped, matches);
    OnlyLeftIgnoresMatch(left, right, key, matches, flipped);
  }

  /** A right item is reported as "only right" exactly when no left item has its key. */
  lemma OnlyRightMember<T, K>(left: seq<T>, right: seq<T>, key: T -> K, matches: (T, T) -> bool, y: T)
    ensures y in Spec(left, right, key, matches).onlyRight
        <==> y in right && forall j :: 0 <= j < |left| ==> key(left[j]) != key(y)
  {
    SelectMember(right, left, key, matches, OnlyLeft, y);
    LookupNone(left, key, key(y));
  }

  ghost predicate DistinctKeys<T, K>(items: seq<T>, key: T -> K) {
    forall i, j :: 0 <= i < j < |items| ==> key(items[i]) != key(items[j])
  }

  ghost predicate Reflexive<T(!new)>(matches: (T, T) -> bool) {
    forall x :: matches(x, x)
  }

  /** Diffing a list with distinct names against itself puts every item in `same` and nothing elsewhere. */
  lemma {:induction false} SelfDiff<T(!new), K>(items: seq<T>, key: T -> K, matches: (T, T) -> bool)
    requires DistinctKeys(items, key) && Reflexive(matches)
    ensures Spec(items, items, key, matches) == Partition(items, [], [], [])
  {
    forall x | x in items
      ensures BucketOf(x, items, key, matches) == Same
    {
      var i :| 0 <= i < |items| && items[i] == x;
      FirstIndexIs(items, key, key(x), i);
    }
    AllInBucket(items, items, key, matches, Same);
  }

  lemma {:induction false} AllInBucket<T, K>(left: seq<T>, right: seq<T>, key: T -> K, matches: (T, T) -> bool, b: Bucket)
    requires forall x :: x in left ==> BucketOf(x, right, key, matches) == b
    ensures Select(left, right, key, matches, b) == left
    ensures forall c: Bucket :: c != b ==> Select(left, right, key, matches, c) == []
    decreases |left|
  {
    if left != [] {
      var init := left[..|left| - 1];
      AllInBucket(init, right, key, matches, b);
      assert left == init + [left[|left| - 1]];
    }
  }

  /**
   * Projections commute with the partition: when `f` keeps keys and the
   * comparison of projected items agrees with the original one on every left and
   * right pair, the partition of the projected lists is the projection of the
   * partition.
   */
  lemma {:induction false} SelectMap<T, U, K>(left: seq<T>, right: seq<T>, key: T -> K, matches: (T, T) -> bool,
                                              f: T -> U, keyU: U -> K, matchesU: (U, U) -> bool, b: Bucket)
    requires forall x :: keyU(f(x)) == key(x)
    requires forall x, y :: x in left && y in right ==> matchesU(f(x), f(y)) == matches(x, y)
    ensures Select(MapSeq(left, f), MapSeq(right, f), keyU, matchesU, b) == MapSeq(Select(left, right, key, matches, b), f)
    decreases |left|
  {
    if left != [] {
      var init := left[..|left| - 1];
      SelectMap(init, right, key, matches, f, keyU, matchesU, b);
      assert MapSeq(left, f)[..|left| - 1] == MapSeq(init, f);
      FirstIndexMap(right, key, f, keyU, key(left[|left| - 1]));
      MapSeqAppend(Select(init, right, key, matches, b), [left[|left| - 1]], f);
    }
  }

  lemma {:induction false} FirstIndexMap<T, U, K>(items: seq<T>, key: T -> K, f: T -> U, keyU: U -> K, k: K)
    requires forall x :: keyU(f(x)) == key(x)
    ensures FirstIndex(MapSeq(items, f), keyU, k) == FirstIndex(items, key, k)
  {
    FirstIndexIs(MapSeq(items, f), keyU, k, FirstIndex(items, key, k));
  }

  /** Two lists whose items carry the same keys, position by position, find a key at the same place. */
  lemma FirstIndexSameKeys<T, K>(a: seq<T>, b: seq<T>, key: T -> K, k: K)
    requires |a| == |b| && forall i :: 0 <= i < |a| ==> key(a[i]) == key(b[i])
    ensures FirstIndex(a, key, k) == FirstIndex(b, key, k)
  {
    FirstIndexIs(b, key, k, FirstIndex(a, key, k));
  }

  function MapSeq<T, U>(s: seq<T>, f: T -> U): (r: seq<U>)
    ensures |r| == |s| && forall i :: 0 <= i < |s| ==> r[i] == f(s[i])
  {
    seq(|s|, i requires 0 <= i < |s| => f(s[i]))
  }

  /** Two sequences with the same items at every index are equal. */
  lemma SameItems<T>(a: seq<T>, b: seq<T>)
    requires |a| == |b| && forall j :: 0 <= j < |a| ==> a[j] == b[j]
    ensures a == b
  {
  }

  /** A non-empty sequence is its prefix followed by its last item. */
  lemma SplitLast<T>(s: seq<T>)
    requires s != []
    ensures s[..|s| - 1] + [s[|s| - 1]] == s
  {
  }

  /** Dropping the last item of `a + b`, for a non-empty `b`, drops the last item of `b`. */
  lemma ConcatLast<T>(a: seq<T>, b: seq<T>)
    requires b != []
    ensures (a + b)[..|a + b| - 1] == a + b[..|b| - 1]
    ensures (a + b)[|a + b| - 1] == b[|b| - 1]
  {
  }

  /** `a + b`, for a non-empty `b`, is `a` and all of `b` but its last item, then that item. */
  lemma SnocRegroup<T>(a: seq<T>, b: seq<T>)
    requires b != []
    ensures a + b == (a + b[..|b| - 1]) + [b[|b| - 1]]
  {
  }

  /** The prefix and the last item of `a + [x]`. */
  lemma SnocParts<T>(a: seq<T>, x: T)
    ensures (a + [x])[..|a + [x]| - 1] == a && (a + [x])[|a + [x]| - 1] == x
  {
  }

  /** Appending nothing after `b + [x]` leaves `b` as its prefix. */
  lemma DropOnly<T>(b: seq<T>, x: T)
    ensures (b + [x] + [])[..|b + [x] + []| - 1] == b
    ensures (b + [x] + [])[|b + [x] + []| - 1] == x
    ensures b + [] == b
  {
  }

  lemma MapSeqAppend<T, U>(a: seq<T>, b: seq<T>, f: T -> U)
    ensures MapSeq(a + b, f) == MapSeq(a, f) + MapSeq(b, f)
  {
  }

  lemma SpecMap<T, U, K>(left: seq<T>, right: seq<T>, key: T -> K, matches: (T, T) -> bool,
                         f: T -> U, keyU: U -> K, matchesU: (U, U) -> bool)
    requires forall x :: keyU(f(x)) == key(x)
    requires forall x, y :: x in left && y in right ==> matchesU(f(x), f(y)) == matches(x, y)
    requires forall x, y :: x in right && y in left ==> matchesU(f(x), f(y)) == matches(x, y)
    ensures var p := Spec(left, right, key, matches);
            Spec(MapSeq(left, f), MapSeq(right, f), keyU, matchesU)
              == Partition(MapSeq(p.same, f), MapSeq(p.changed, f), MapSeq(p.onlyLeft, f), MapSeq(p.onlyRight, f))
  {
    SelectMap(left, right, key, matches, f, keyU, matchesU, Same);
    SelectMap(left, right, key, matches, f, keyU, matchesU, Changed);
    SelectMap(left, right, key, matches, f, keyU, matchesU, OnlyLeft);
    SelectMap(right, left, key, matches, f, keyU, matchesU, OnlyLeft);
  }
}

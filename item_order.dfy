/** The order of the matching items of a list view: the comparator
 *  `itemSort`, the binary search (std::upper_bound) that places an added
 *  item, the stable sort (std::stable_sort) run by `maybeSort`, and the
 *  linear search (std::find) behind `findItem`, `isInList` and `getPosition`.
 *
 *  The sequence lemmas are stated for any integer sort key `key: T -> int`;
 *  `ItemSortIsKeyOrder` shows that `itemSort` orders items exactly by the key
 *  `SortKey`, so they apply to the view with `KeyOf(...)`. */
module ItemOrder {
  import opened PropertyRegistry

  /** Three-way comparison of two sort values. */
  function Compare(a: int, b: int): int {
    if a < b then -1 else if a > b then 1 else 0
  }

  /** The `res` of `itemSort`: negative, zero or positive as `t1` sorts
   *  before, together with or after `t2` on the sort property. `value(t, p)`
   *  is the rank of the item's value of property `p` under the property's
   *  sort method (a number, a text collation or a custom comparator). */
  function SortResult<T>(t1: T, t2: T, properties: seq<Property>, value: (T, PropertyId) -> int, sortProperty: int): int {
    if 0 <= sortProperty < |properties| then
      match properties[sortProperty].sortMethod
      case SortNumeric => Compare(value(t1, sortProperty), value(t2, sortProperty))
      case SortText => Compare(value(t1, sortProperty), value(t2, sortProperty))
      case SortCustom => Compare(value(t1, sortProperty), value(t2, sortProperty))
      case SortNone => 0
    else 0
  }

  /** itemSort: whether `t1` goes strictly before `t2`. A direction of 1 is
   *  ascending; every other value (0, or -1 when unset) is descending. */
  function ItemSort<T>(t1: T, t2: T, properties: seq<Property>, value: (T, PropertyId) -> int, sortProperty: int, sortAscending: int): bool {
    var res := SortResult(t1, t2, properties, value, sortProperty);
    if sortAscending == 1 then res < 0 else res > 0
  }

  /** The integer key by which `ItemSort` orders items. */
  function SortKey<T>(properties: seq<Property>, value: (T, PropertyId) -> int, sortProperty: int, sortAscending: int, x: T): int {
    if 0 <= sortProperty < |properties| && properties[sortProperty].sortMethod != SortNone then
      (if sortAscending == 1 then value(x, sortProperty) else -value(x, sortProperty))
    else 0
  }

  function KeyOf<T>(properties: seq<Property>, value: (T, PropertyId) -> int, sortProperty: int, sortAscending: int): T -> int {
    x => SortKey(properties, value, sortProperty, sortAscending, x)
  }

  /** itemSort is a strict weak order: it is the "less than" of an integer
   *  key, so it is irreflexive and transitive and its incomparability is an
   *  equivalence. SORT_NONE orders no two items. */
  lemma ItemSortIsKeyOrder<T>(t1: T, t2: T, properties: seq<Property>, value: (T, PropertyId) -> int, sortProperty: int, sortAscending: int)
    ensures ItemSort(t1, t2, properties, value, sortProperty, sortAscending)
            <==> KeyOf(properties, value, sortProperty, sortAscending)(t1) < KeyOf(properties, value, sortProperty, sortAscending)(t2)
    ensures 0 <= sortProperty < |properties| && properties[sortProperty].sortMethod == SortNone
            ==> !ItemSort(t1, t2, properties, value, sortProperty, sortAscending)
  {
  }

  /** `s` is in non-decreasing key order. */
  ghost predicate Sorted<T>(s: seq<T>, key: T -> int) {
    forall i, j :: 0 <= i < j < |s| ==> key(s[i]) <= key(s[j])
  }

  /** std::upper_bound on s[first .. first + len] as libstdc++ runs it: halve
   *  the range, keep the left half when `x` sorts before the middle element,
   *  else continue right of it. Defined for any sequence; on a sorted one it
   *  is the first position whose element sorts after `x`. */
  function UpperBoundFrom<T>(s: seq<T>, x: T, key: T -> int, first: nat, len: nat): (r: nat)
    requires first + len <= |s|
    ensures first <= r <= first + len
    decreases len
  {
    if len == 0 then first
    else
      var half := len / 2;
      if key(x) < key(s[first + half]) then UpperBoundFrom(s, x, key, first, half)
      else UpperBoundFrom(s, x, key, first + half + 1, len - half - 1)
  }

  function UpperBound<T>(s: seq<T>, x: T, key: T -> int): (r: nat)
    ensures r <= |s|
  {
    UpperBoundFrom(s, x, key, 0, |s|)
  }

  lemma {:induction false} UpperBoundFromPartitions<T>(s: seq<T>, x: T, key: T -> int, first: nat, len: nat)
    requires first + len <= |s| && Sorted(s, key)
    requires forall i :: 0 <= i < first ==> key(s[i]) <= key(x)
    requires forall i :: first + len <= i < |s| ==> key(x) < key(s[i])
    ensures forall i :: 0 <= i < UpperBoundFrom(s, x, key, first, len) ==> key(s[i]) <= key(x)
    ensures forall i :: UpperBoundFrom(s, x, key, first, len) <= i < |s| ==> key(x) < key(s[i])
    decreases len
  {
    if len > 0 {
      var half := len / 2;
      if key(x) < key(s[first + half]) {
        UpperBoundFromPartitions(s, x, key, first, half);
      } else {
        UpperBoundFromPartitions(s, x, key, first + half + 1, len - half - 1);
      }
    }
  }

  /** On a sorted sequence the upper bound splits it into the elements that
   *  do not sort after `x` and those that do. */
  lemma UpperBoundIsPartitionPoint<T>(s: seq<T>, x: T, key: T -> int)
    requires Sorted(s, key)
    ensures forall i :: 0 <= i < UpperBound(s, x, key) ==> key(s[i]) <= key(x)
    ensures forall i :: UpperBound(s, x, key) <= i < |s| ==> key(x) < key(s[i])
  {
    UpperBoundFromPartitions(s, x, key, 0, |s|);
  }

  /** vector::insert: `x` placed at index `i`, the rest kept in order. */
  function InsertAt<T>(s: seq<T>, i: nat, x: T): (r: seq<T>)
    requires i <= |s|
    ensures |r| == |s| + 1 && r[i] == x
    ensures forall j :: 0 <= j < i ==> r[j] == s[j]
    ensures forall j :: i <= j < |s| ==> r[j + 1] == s[j]
    ensures multiset(r) == multiset(s) + multiset{x}
  {
    assert s == s[..i] + s[i..];
    s[..i] + [x] + s[i..]
  }

  /** vector::erase: the element at index `i` removed, the rest kept in order. */
  function RemoveAt<T>(s: seq<T>, i: nat): (r: seq<T>)
    requires i < |s|
    ensures |r| == |s| - 1
    ensures forall j :: 0 <= j < i ==> r[j] == s[j]
    ensures forall j :: i <= j < |r| ==> r[j] == s[j + 1]
    ensures multiset(r) == multiset(s) - multiset{s[i]}
  {
    assert s == s[..i] + [s[i]] + s[i + 1..];
    s[..i] + s[i + 1..]
  }

  /** getPosition (std::find): the index of the first occurrence of `x`, or
   *  -1 when `x` is not in `s`; isInList is `IndexOf(s, x) >= 0`. */
  function IndexOf<T(==)>(s: seq<T>, x: T): (r: int)
    ensures -1 <= r < |s|
    ensures r < 0 <==> x !in s
    ensures 0 <= r ==> s[r] == x && x !in s[..r]
    decreases |s|
  {
    if |s| == 0 then -1
    else if s[0] == x then 0
    else
      var r := IndexOf(s[1..], x);
      assert 0 <= r ==> s[..r + 1] == [s[0]] + s[1..][..r];
      if r < 0 then -1 else r + 1
  }

  /** The elements of `s` whose key is `k`, in their order in `s`. A sort is
   *  stable when it keeps this subsequence for every `k`. */
  function KeyFilter<T>(s: seq<T>, key: T -> int, k: int): seq<T>
    decreases |s|
  {
    if |s| == 0 then []
    else KeyFilter(s[..|s| - 1], key, k) + (if key(s[|s| - 1]) == k then [s[|s| - 1]] else [])
  }

  lemma {:induction false} KeyFilterAppend<T>(a: seq<T>, b: seq<T>, key: T -> int, k: int)
    ensures KeyFilter(a + b, key, k) == KeyFilter(a, key, k) + KeyFilter(b, key, k)
    decreases |b|
  {
    if |b| == 0 {
      assert a + b == a;
    } else {
      var b' := b[..|b| - 1];
      assert (a + b)[..|a + b| - 1] == a + b';
      KeyFilterAppend(a, b', key, k);
    }
  }

  lemma {:induction false} KeyFilterAllAbove<T>(s: seq<T>, key: T -> int, k: int)
    requires forall i :: 0 <= i < |s| ==> k < key(s[i])
    ensures KeyFilter(s, key, k) == []
    decreases |s|
  {
    if |s| > 0 {
      KeyFilterAllAbove(s[..|s| - 1], key, k);
    }
  }

  /** KeyFilter splits where an element is inserted. */
  lemma KeyFilterInsertAt<T>(s: seq<T>, p: nat, x: T, key: T -> int, k: int)
    requires p <= |s|
    ensures KeyFilter(InsertAt(s, p, x), key, k)
            == KeyFilter(s[..p], key, k) + (if key(x) == k then [x] else []) + KeyFilter(s[p..], key, k)
    ensures KeyFilter(s, key, k) == KeyFilter(s[..p], key, k) + KeyFilter(s[p..], key, k)
  {
    var lo, hi := s[..p], s[p..];
    assert InsertAt(s, p, x) == lo + [x] + hi;
    assert s == lo + hi;
    KeyFilterAppend(lo + [x], hi, key, k);
    KeyFilterAppend(lo, [x], key, k);
    KeyFilterAppend(lo, hi, key, k);
  }

  /** No element from the upper bound on has the key of `x`. */
  lemma KeyFilterAboveUpperBound<T>(s: seq<T>, x: T, key: T -> int)
    requires Sorted(s, key)
    ensures KeyFilter(s[UpperBound(s, x, key)..], key, key(x)) == []
  {
    var p := UpperBound(s, x, key);
    UpperBoundIsPartitionPoint(s, x, key);
    forall i | 0 <= i < |s[p..]|
      ensures key(x) < key(s[p..][i])
    {
      assert s[p..][i] == s[p + i];
    }
    KeyFilterAllAbove(s[p..], key, key(x));
  }

  lemma KeyFilterInsertAtUpperBound<T>(s: seq<T>, x: T, key: T -> int, k: int)
    requires Sorted(s, key)
    ensures KeyFilter(InsertAt(s, UpperBound(s, x, key), x), key, k)
            == KeyFilter(s, key, k) + (if key(x) == k then [x] else [])
  {
    KeyFilterInsertAt(s, UpperBound(s, x, key), x, key, k);
    if key(x) == k {
      KeyFilterAboveUpperBound(s, x, key);
    }
  }

  /** handleAddItem's insertion: placing `x` at its upper bound keeps a
   *  sorted sequence sorted, and `x` comes after every element with an equal
   *  key, so the elements of each key keep their order. */
  lemma InsertAtUpperBound<T>(s: seq<T>, x: T, key: T -> int)
    requires Sorted(s, key)
    ensures Sorted(InsertAt(s, UpperBound(s, x, key), x), key)
    ensures forall k :: KeyFilter(InsertAt(s, UpperBound(s, x, key), x), key, k)
                        == KeyFilter(s, key, k) + (if key(x) == k then [x] else [])
  {
    var p := UpperBound(s, x, key);
    var r := InsertAt(s, p, x);
    UpperBoundIsPartitionPoint(s, x, key);
    forall a, b | 0 <= a < b < |r|
      ensures key(r[a]) <= key(r[b])
    {
      if b < p {
        assert r[a] == s[a] && r[b] == s[b];
      } else if b == p {
        assert r[a] == s[a];
      } else if a < p {
        assert r[a] == s[a] && r[b] == s[b - 1];
      } else if a == p {
        assert r[b] == s[b - 1];
      } else {
        assert r[a] == s[a - 1] && r[b] == s[b - 1];
      }
    }
    forall k
      ensures KeyFilter(r, key, k) == KeyFilter(s, key, k) + (if key(x) == k then [x] else [])
    {
      KeyFilterInsertAtUpperBound(s, x, key, k);
    }
  }

  /** Erasing an element keeps a sorted sequence sorted. */
  lemma RemoveAtSorted<T>(s: seq<T>, i: nat, key: T -> int)
    requires i < |s| && Sorted(s, key)
    ensures Sorted(RemoveAt(s, i), key)
  {
    var r := RemoveAt(s, i);
    forall a, b | 0 <= a < b < |r|
      ensures key(r[a]) <= key(r[b])
    {
      var a' := if a < i then a else a + 1;
      var b' := if b < i then b else b + 1;
      assert r[a] == s[a'] && r[b] == s[b'];
    }
  }

  /** std::stable_sort by `key`, as insertion of each element, in order, at
   *  its upper bound in the already sorted prefix. */
  function SortStable<T>(s: seq<T>, key: T -> int): (r: seq<T>)
    ensures |r| == |s|
    decreases |s|
  {
    if |s| == 0 then []
    else
      var sorted := SortStable(s[..|s| - 1], key);
      InsertAt(sorted, UpperBound(sorted, s[|s| - 1], key), s[|s| - 1])
  }

  lemma {:induction false} SortStableSorted<T>(s: seq<T>, key: T -> int)
    ensures Sorted(SortStable(s, key), key)
    decreases |s|
  {
    if |s| > 0 {
      SortStableSorted(s[..|s| - 1], key);
      InsertAtUpperBound(SortStable(s[..|s| - 1], key), s[|s| - 1], key);
    }
  }

  lemma {:induction false} SortStablePermutes<T>(s: seq<T>, key: T -> int)
    ensures multiset(SortStable(s, key)) == multiset(s)
    decreases |s|
  {
    if |s| > 0 {
      SortStablePermutes(s[..|s| - 1], key);
      assert s == s[..|s| - 1] + [s[|s| - 1]];
    }
  }

  lemma {:induction false} SortStableKeepsEqualKeyOrder<T>(s: seq<T>, key: T -> int, k: int)
    ensures KeyFilter(SortStable(s, key), key, k) == KeyFilter(s, key, k)
    decreases |s|
  {
    if |s| > 0 {
      var prefix := s[..|s| - 1];
      SortStableKeepsEqualKeyOrder(prefix, key, k);
      SortStableSorted(prefix, key);
      KeyFilterInsertAtUpperBound(SortStable(prefix, key), s[|s| - 1], key, k);
    }
  }

  /** The stable sort's result is sorted by `key`, is a permutation of its
   *  input, and keeps the input order among elements with equal keys. */
  lemma SortStableIsStableSort<T>(s: seq<T>, key: T -> int)
    ensures Sorted(SortStable(s, key), key)
    ensures multiset(SortStable(s, key)) == multiset(s)
    ensures forall k :: KeyFilter(SortStable(s, key), key, k) == KeyFilter(s, key, k)
  {
    SortStableSorted(s, key);
    SortStablePermutes(s, key);
    forall k
      ensures KeyFilter(SortStable(s, key), key, k) == KeyFilter(s, key, k)
    {
      SortStableKeepsEqualKeyOrder(s, key, k);
    }
  }
}

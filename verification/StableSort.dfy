/** Stable sorting by an integer key, as std::stable_sort does it and as iterating a sorted map of
    arrival-ordered levels does it. A stable sort is characterised without naming an algorithm: the
    keys do not decrease, and the elements of each key appear in their original order. */
module StableSort {

  /** The elements of one key, in order. */
  function WithKey<T>(s: seq<T>, key: T -> int, k: int): seq<T> {
    if s == [] then []
    else
      var last := s[|s| - 1];
      WithKey(s[..|s| - 1], key, k) + if key(last) == k then [last] else []
  }

  ghost predicate NonDecreasing<T>(s: seq<T>, key: T -> int) {
    forall i, j :: 0 <= i < j < |s| ==> key(s[i]) <= key(s[j])
  }

  ghost predicate IsStableSort<T>(s: seq<T>, r: seq<T>, key: T -> int) {
    && NonDecreasing(r, key)
    && forall k :: WithKey(r, key, k) == WithKey(s, key, k)
  }

  /** `x` goes behind every element whose key is not greater. */
  function Insert<T>(s: seq<T>, key: T -> int, x: T): seq<T> {
    if s == [] || key(s[|s| - 1]) <= key(x) then s + [x]
    else Insert(s[..|s| - 1], key, x) + [s[|s| - 1]]
  }

  function Sort<T>(s: seq<T>, key: T -> int): seq<T> {
    if s == [] then [] else Insert(Sort(s[..|s| - 1], key), key, s[|s| - 1])
  }

  lemma WithKeyAppend<T>(s: seq<T>, key: T -> int, k: int, x: T)
    ensures WithKey(s + [x], key, k) == WithKey(s, key, k) + if key(x) == k then [x] else []
  {
    assert (s + [x])[..|s|] == s;
  }

  lemma {:induction false} WithKeyConcat<T>(s: seq<T>, t: seq<T>, key: T -> int, k: int)
    ensures WithKey(s + t, key, k) == WithKey(s, key, k) + WithKey(t, key, k)
  {
    if t == [] {
      assert s + t == s;
    } else {
      var u := t[..|t| - 1];
      WithKeyConcat(s, u, key, k);
      assert s + t == (s + u) + [t[|t| - 1]];
      WithKeyAppend(s + u, key, k, t[|t| - 1]);
      assert u + [t[|t| - 1]] == t;
    }
  }

  /** An element is among those of its own key, and only elements of key k are. */
  lemma {:induction false} WithKeyMembers<T>(s: seq<T>, key: T -> int, k: int)
    ensures forall x :: x in WithKey(s, key, k) <==> x in s && key(x) == k
  {
    if s != [] {
      var front := s[..|s| - 1];
      WithKeyMembers(front, key, k);
      assert s == front + [s[|s| - 1]];
    }
  }

  lemma {:induction false} InsertPermutes<T>(s: seq<T>, key: T -> int, x: T)
    ensures multiset(Insert(s, key, x)) == multiset(s) + multiset{x}
  {
    if s != [] && key(s[|s| - 1]) > key(x) {
      InsertPermutes(s[..|s| - 1], key, x);
      assert s == s[..|s| - 1] + [s[|s| - 1]];
    }
  }

  lemma {:induction false} InsertNonDecreasing<T>(s: seq<T>, key: T -> int, x: T)
    requires NonDecreasing(s, key)
    ensures NonDecreasing(Insert(s, key, x), key)
  {
    if s != [] && key(s[|s| - 1]) > key(x) {
      var front, last := s[..|s| - 1], s[|s| - 1];
      InsertNonDecreasing(front, key, x);
      InsertPermutes(front, key, x);
      var r := Insert(front, key, x);
      forall i | 0 <= i < |r| ensures key(r[i]) <= key(last) {
        assert r[i] in multiset(r);
        assert r[i] == x || r[i] in front;
      }
    }
  }

  lemma {:induction false} InsertWithKey<T>(s: seq<T>, key: T -> int, x: T, k: int)
    requires NonDecreasing(s, key)
    ensures WithKey(Insert(s, key, x), key, k) == WithKey(s, key, k) + if key(x) == k then [x] else []
  {
    if s == [] || key(s[|s| - 1]) <= key(x) {
      WithKeyAppend(s, key, k, x);
    } else {
      var front, last := s[..|s| - 1], s[|s| - 1];
      InsertWithKey(front, key, x, k);
      WithKeyAppend(Insert(front, key, x), key, k, last);
    }
  }

  /** Sort is a stable sort, and a permutation. */
  lemma {:induction false} SortIsStable<T>(s: seq<T>, key: T -> int)
    ensures IsStableSort(s, Sort(s, key), key)
    ensures multiset(Sort(s, key)) == multiset(s)
  {
    if s != [] {
      var front, last := s[..|s| - 1], s[|s| - 1];
      assert s == front + [last];
      SortIsStable(front, key);
      InsertPermutes(Sort(front, key), key, last);
      InsertNonDecreasing(Sort(front, key), key, last);
      forall k ensures WithKey(Sort(s, key), key, k) == WithKey(s, key, k) {
        InsertWithKey(Sort(front, key), key, last, k);
      }
    }
  }

  /** The last element of a non-decreasing sequence ends the run of the greatest key. */
  lemma LastOfGreatestKey<T>(s: seq<T>, t: seq<T>, key: T -> int)
    requires s != [] && NonDecreasing(t, key)
    requires forall k :: WithKey(s, key, k) == WithKey(t, key, k)
    ensures t != [] && key(s[|s| - 1]) <= key(t[|t| - 1])
  {
    var k := key(s[|s| - 1]);
    WithKeyMembers(s, key, k);
    WithKeyMembers(t, key, k);
    assert s[|s| - 1] in WithKey(t, key, k);
  }

  lemma SameTail<T>(p: seq<T>, x: T, q: seq<T>, y: T)
    requires p + [x] == q + [y]
    ensures p == q && x == y
  {
    assert |p + [x]| == |q + [y]|;
    assert (p + [x])[..|p|] == p && (q + [y])[..|q|] == q;
    assert (p + [x])[|p|] == x && (q + [y])[|q|] == y;
  }

  /** There is only one stable sort. */
  lemma {:induction false} StableSortUnique<T>(a: seq<T>, b: seq<T>, key: T -> int)
    requires NonDecreasing(a, key) && NonDecreasing(b, key)
    requires forall k :: WithKey(a, key, k) == WithKey(b, key, k)
    ensures a == b
    decreases |a|
  {
    if a == [] {
      if b != [] {
        LastOfGreatestKey(b, a, key);
      }
    } else {
      LastOfGreatestKey(a, b, key);
      LastOfGreatestKey(b, a, key);
      var fa, la := a[..|a| - 1], a[|a| - 1];
      var fb, lb := b[..|b| - 1], b[|b| - 1];
      var top := key(la);
      assert WithKey(a, key, top) == WithKey(b, key, top);
      SameTail(WithKey(fa, key, top), la, WithKey(fb, key, top), lb);
      forall k ensures WithKey(fa, key, k) == WithKey(fb, key, k) {
        assert WithKey(a, key, k) == WithKey(b, key, k);
        if k != top {
          assert WithKey(a, key, k) == WithKey(fa, key, k);
          assert WithKey(b, key, k) == WithKey(fb, key, k);
        }
      }
      StableSortUnique(fa, fb, key);
      assert a == fa + [la] && b == fb + [lb];
    }
  }

  /** Anything that meets the definition is what Sort returns. */
  lemma SortIsTheStableSort<T>(s: seq<T>, r: seq<T>, key: T -> int)
    requires IsStableSort(s, r, key)
    ensures r == Sort(s, key)
  {
    SortIsStable(s, key);
    StableSortUnique(r, Sort(s, key), key);
  }

  // ------------------------------------------------------------------- where each element ends up

  function CountAtMost<T>(s: seq<T>, key: T -> int, k: int): (n: nat)
    ensures n <= |s|
  {
    if s == [] then 0
    else CountAtMost(s[..|s| - 1], key, k) + if key(s[|s| - 1]) <= k then 1 else 0
  }

  /** How many elements sort before s[i]: the earlier ones whose key is not greater and the later
      ones whose key is less. */
  function SortedIndex<T>(s: seq<T>, key: T -> int, i: nat): (n: nat)
    requires i < |s|
    ensures n < |s|
  {
    var front, last := s[..|s| - 1], s[|s| - 1];
    if i == |front| then CountAtMost(front, key, key(last))
    else SortedIndex(front, key, i) + if key(last) < key(s[i]) then 1 else 0
  }

  lemma CountAppend<T>(s: seq<T>, key: T -> int, k: int, x: T)
    ensures CountAtMost(s + [x], key, k) == CountAtMost(s, key, k) + if key(x) <= k then 1 else 0
  {
    assert (s + [x])[..|s|] == s;
  }

  lemma {:induction false} CountInsert<T>(s: seq<T>, key: T -> int, k: int, x: T)
    ensures CountAtMost(Insert(s, key, x), key, k) == CountAtMost(s, key, k) + if key(x) <= k then 1 else 0
  {
    if s == [] || key(s[|s| - 1]) <= key(x) {
      CountAppend(s, key, k, x);
    } else {
      CountInsert(s[..|s| - 1], key, k, x);
      CountAppend(Insert(s[..|s| - 1], key, x), key, k, s[|s| - 1]);
    }
  }

  lemma {:induction false} CountSort<T>(s: seq<T>, key: T -> int, k: int)
    ensures CountAtMost(Sort(s, key), key, k) == CountAtMost(s, key, k)
  {
    if s != [] {
      CountSort(s[..|s| - 1], key, k);
      CountInsert(Sort(s[..|s| - 1], key), key, k, s[|s| - 1]);
    }
  }

  /** In a non-decreasing sequence the elements of key at most k come first. */
  lemma {:induction false} CountIsBoundary<T>(s: seq<T>, key: T -> int, k: int)
    requires NonDecreasing(s, key)
    ensures forall i :: 0 <= i < |s| ==> (key(s[i]) <= k <==> i < CountAtMost(s, key, k))
  {
    if s != [] {
      CountIsBoundary(s[..|s| - 1], key, k);
      if key(s[|s| - 1]) <= k {
        CountIsBoundaryAll(s[..|s| - 1], key, k);
      }
    }
  }

  lemma {:induction false} CountIsBoundaryAll<T>(s: seq<T>, key: T -> int, k: int)
    requires forall i :: 0 <= i < |s| ==> key(s[i]) <= k
    ensures CountAtMost(s, key, k) == |s|
  {
    if s != [] {
      CountIsBoundaryAll(s[..|s| - 1], key, k);
    }
  }

  /** Insert splits the sequence at that boundary. */
  lemma {:induction false} InsertShape<T>(s: seq<T>, key: T -> int, x: T)
    requires NonDecreasing(s, key)
    ensures var q := CountAtMost(s, key, key(x)); Insert(s, key, x) == s[..q] + [x] + s[q..]
  {
    if s == [] || key(s[|s| - 1]) <= key(x) {
      CountIsBoundaryAll(s, key, key(x));
    } else {
      var front, last := s[..|s| - 1], s[|s| - 1];
      InsertShape(front, key, x);
      var q := CountAtMost(front, key, key(x));
      assert s[..q] == front[..q] && s[q..] == front[q..] + [last];
    }
  }

  /** Where an Insert puts the new element and the old ones. */
  lemma InsertPlaces<T>(s: seq<T>, key: T -> int, x: T, r: nat)
    requires NonDecreasing(s, key) && r < |s|
    ensures |Insert(s, key, x)| == |s| + 1
    ensures Insert(s, key, x)[if key(x) < key(s[r]) then r + 1 else r] == s[r]
  {
    InsertShape(s, key, x);
    CountIsBoundary(s, key, key(x));
  }

  lemma SortLength<T>(s: seq<T>, key: T -> int)
    ensures |Sort(s, key)| == |s|
  {
    SortIsStable(s, key);
    assert |multiset(Sort(s, key))| == |multiset(s)|;
  }

  /** Every element is found at its sorted index. */
  lemma {:induction false} SortPlaces<T>(s: seq<T>, key: T -> int, i: nat)
    requires i < |s|
    ensures |Sort(s, key)| == |s| && Sort(s, key)[SortedIndex(s, key, i)] == s[i]
  {
    hide NonDecreasing, Insert, CountAtMost, IsStableSort;
    var front, last := s[..|s| - 1], s[|s| - 1];
    var sorted := Sort(front, key);
    SortLength(s, key);
    SortNonDecreasing(front, key);
    if i < |front| {
      SortPlaces(front, key, i);
      InsertPlaces(sorted, key, last, SortedIndex(front, key, i));
    } else {
      InsertShape(sorted, key, last);
      CountSort(front, key, key(last));
    }
  }

  lemma SortNonDecreasing<T>(s: seq<T>, key: T -> int)
    ensures NonDecreasing(Sort(s, key), key)
  {
    SortIsStable(s, key);
  }
}

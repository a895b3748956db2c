/** sort, a heapsort over 1-based indices, and binary_search (src/lib/stdlib.c). Elements are
    values of any type instead of runs of bytes. */
module HeapSort {
  import opened Common

  /** What strcmp()-type comparison functions satisfy. */
  ghost predicate TotalPreorder<E(!new)>(compare: (E, E) -> int) {
    && (forall a, b :: compare(a, b) > 0 <==> compare(b, a) < 0)
    && (forall a, b, c :: compare(a, b) <= 0 && compare(b, c) <= 0 ==> compare(a, c) <= 0)
  }

  ghost predicate Sorted<E>(s: seq<E>, compare: (E, E) -> int) {
    forall i, j | 0 <= i < j < |s| :: compare(s[i], s[j]) <= 0
  }

  // ----- Heaps -----

  /** Element k is not greater than its parent, element k / 2. */
  ghost predicate Below<E>(s: seq<E>, compare: (E, E) -> int, k: int)
    requires 2 <= k <= |s|
  {
    compare(s[k - 1], s[k / 2 - 1]) <= 0
  }

  /** The first cnt elements are a heap from element lo on. */
  ghost predicate HeapFrom<E>(s: seq<E>, compare: (E, E) -> int, lo: int, cnt: nat)
    requires cnt <= |s|
  {
    forall k | 2 <= k <= cnt && lo <= k / 2 :: Below(s, compare, k)
  }

  /** A heap from lo on, but for element i, whose children are not greater than its parent. */
  ghost predicate HeapBut<E>(s: seq<E>, compare: (E, E) -> int, lo: int, i: int, cnt: nat)
    requires cnt <= |s| && 1 <= i
  {
    && (forall k | 2 <= k <= cnt && lo <= k / 2 && k / 2 != i :: Below(s, compare, k))
    && (forall k | 2 <= k <= cnt && k / 2 == i && lo <= i / 2 && 2 <= i <= cnt :: compare(s[k - 1], s[i / 2 - 1]) <= 0)
  }

  lemma HeapStart<E>(s: seq<E>, compare: (E, E) -> int, i: nat, cnt: nat)
    requires 1 <= i && cnt <= |s| && HeapFrom(s, compare, i + 1, cnt)
    ensures HeapBut(s, compare, i, i, cnt) && Permuted(s, s, cnt)
  {
  }

  lemma HeapDone<E(!new)>(s: seq<E>, compare: (E, E) -> int, lo: int, i: int, cnt: nat)
    requires TotalPreorder(compare) && cnt <= |s| && 1 <= i && HeapBut(s, compare, lo, i, cnt)
    requires 2 * i <= cnt ==> compare(s[2 * i - 1], s[i - 1]) <= 0
    requires 2 * i + 1 <= cnt ==> compare(s[2 * i], s[i - 1]) <= 0
    ensures HeapFrom(s, compare, lo, cnt)
  {
    forall k | 2 <= k <= cnt && lo <= k / 2
      ensures Below(s, compare, k)
    {
      if k / 2 == i { assert k == 2 * i || k == 2 * i + 1; }
    }
  }

  function Swapped<E>(s: seq<E>, i: nat, j: nat): (r: seq<E>)
    requires 1 <= i <= |s| && 1 <= j <= |s|
  {
    s[i - 1 := s[j - 1]][j - 1 := s[i - 1]]
  }

  /** Floating element i down to its greatest child m. */
  lemma FloatDown<E(!new)>(s: seq<E>, compare: (E, E) -> int, lo: int, i: nat, cnt: nat, m: nat)
    requires TotalPreorder(compare) && cnt <= |s| && 1 <= lo <= i <= cnt && HeapBut(s, compare, lo, i, cnt)
    requires 2 * i <= m <= 2 * i + 1 && m <= cnt && compare(s[m - 1], s[i - 1]) > 0
    requires compare(s[2 * i - 1], s[m - 1]) <= 0 && (2 * i + 1 <= cnt ==> compare(s[2 * i], s[m - 1]) <= 0)
    ensures HeapBut(Swapped(s, i, m), compare, lo, m, cnt)
  {
    var t := Swapped(s, i, m);
    assert m / 2 == i;
    forall k | 2 <= k <= cnt && lo <= k / 2 && k / 2 != m
      ensures Below(t, compare, k)
    {
      if k / 2 == i {
        assert 2 * i <= k <= 2 * i + 1;
      } else {
        assert Below(s, compare, k);
      }
    }
    forall k | 2 <= k <= cnt && k / 2 == m
      ensures compare(t[k - 1], t[m / 2 - 1]) <= 0
    {
      assert Below(s, compare, k);
    }
  }

  // ----- Permutations -----

  /** t is s with its first n elements permuted. */
  ghost predicate Permuted<E>(s: seq<E>, t: seq<E>, n: nat) {
    n <= |s| == |t| && multiset(t[..n]) == multiset(s[..n]) && t[n..] == s[n..]
  }

  lemma SwapPermutes<E>(r: seq<E>, s: seq<E>, i: nat, j: nat, n: nat)
    requires Permuted(r, s, n) && 1 <= i <= n && 1 <= j <= n
    ensures Permuted(r, Swapped(s, i, j), n)
  {
    assert Swapped(s, i, j)[..n] == s[..n][i - 1 := s[..n][j - 1]][j - 1 := s[..n][i - 1]];
  }

  /** The root of a heap is a greatest element. */
  lemma {:induction false} RootGreatest<E(!new)>(s: seq<E>, compare: (E, E) -> int, cnt: nat, k: nat)
    requires TotalPreorder(compare) && cnt <= |s| && HeapFrom(s, compare, 1, cnt) && 1 <= k <= cnt
    ensures compare(s[k - 1], s[0]) <= 0
  {
    if k > 1 {
      assert Below(s, compare, k);
      RootGreatest(s, compare, cnt, k / 2);
    }
  }

  /** Elements 1..n are not greater than any element after them. */
  ghost predicate Split<E>(s: seq<E>, compare: (E, E) -> int, n: nat)
    requires n <= |s|
  {
    forall i, j | 0 <= i < n <= j < |s| :: compare(s[i], s[j]) <= 0
  }

  lemma SplitKept<E(!new)>(s: seq<E>, t: seq<E>, compare: (E, E) -> int, n: nat)
    requires Permuted(s, t, n) && Split(s, compare, n)
    ensures Split(t, compare, n)
  {
    forall i, j | 0 <= i < n <= j < |t|
      ensures compare(t[i], t[j]) <= 0
    {
      assert t[..n][i] in multiset(t[..n]);
      assert t[..n][i] in s[..n];
      assert t[j] == t[n..][j - n] == s[j];
    }
  }

  lemma Whole<E>(s: seq<E>, t: seq<E>, n: nat)
    requires Permuted(s, t, n)
    ensures multiset(t) == multiset(s)
  {
    assert s == s[..n] + s[n..] && t == t[..n] + t[n..];
  }

  // ----- The program -----

  /** do_swap */
  method Swap<E>(a: array<E>, i: nat, j: nat)
    requires 1 <= i <= a.Length && 1 <= j <= a.Length
    modifies a
    ensures a[..] == Swapped(old(a[..]), i, j)
  {
    a[i - 1], a[j - 1] := a[j - 1], a[i - 1];
  }

  /** The greatest of element i and its children. */
  method Greatest<E(!new)>(a: array<E>, i: nat, cnt: nat, compare: (E, E) -> int) returns (max: nat)
    requires TotalPreorder(compare) && 1 <= i <= cnt <= a.Length
    ensures max == i || (2 * i <= max <= 2 * i + 1 && max <= cnt && compare(a[max - 1], a[i - 1]) > 0)
    ensures 2 * i <= cnt ==> compare(a[2 * i - 1], a[max - 1]) <= 0
    ensures 2 * i + 1 <= cnt ==> compare(a[2 * i], a[max - 1]) <= 0
  {
    var left, right := 2 * i, 2 * i + 1;
    max := i;
    if left <= cnt && compare(a[left - 1], a[max - 1]) > 0 {
      max := left;
    }
    if right <= cnt && compare(a[right - 1], a[max - 1]) > 0 {
      max := right;
    }
    assert compare(a[max - 1], a[max - 1]) <= 0;
  }

  /** heapify */
  method Heapify<E(!new)>(a: array<E>, start: nat, cnt: nat, compare: (E, E) -> int)
    requires TotalPreorder(compare) && 1 <= start <= cnt <= a.Length && HeapFrom(a[..], compare, start + 1, cnt)
    modifies a
    ensures HeapFrom(a[..], compare, start, cnt) && Permuted(old(a[..]), a[..], cnt)
  {
    hide Permuted, HeapBut, HeapFrom, Swapped;
    HeapStart(a[..], compare, start, cnt);
    var i := start;
    while true
      invariant start <= i <= cnt && HeapBut(a[..], compare, start, i, cnt)
      invariant Permuted(old(a[..]), a[..], cnt)
      decreases cnt - i
    {
      var max := Greatest(a, i, cnt, compare);
      if max == i {
        HeapDone(a[..], compare, start, i, cnt);
        break;
      }
      FloatDown(a[..], compare, start, i, cnt, max);
      SwapPermutes(old(a[..]), a[..], i, max, cnt);
      Swap(a, i, max);
      i := max;
    }
  }

  /** sort leaves a sorted permutation. */
  method Sort<E(!new)>(a: array<E>, compare: (E, E) -> int)
    requires TotalPreorder(compare)
    modifies a
    ensures Sorted(a[..], compare) && multiset(a[..]) == multiset(old(a[..]))
  {
    var cnt := a.Length;
    var i := cnt / 2;
    while i > 0
      invariant 0 <= i <= cnt / 2 && HeapFrom(a[..], compare, i + 1, cnt)
      invariant multiset(a[..]) == multiset(old(a[..]))
    {
      ghost var s := a[..];
      Heapify(a, i, cnt, compare);
      Whole(s, a[..], cnt);
      i := i - 1;
    }
    i := cnt;
    while i > 1
      invariant 0 <= i <= cnt && (i == 0 ==> cnt == 0) && HeapFrom(a[..], compare, 1, i)
      invariant Split(a[..], compare, i) && Sorted(a[..][i..], compare)
      invariant multiset(a[..]) == multiset(old(a[..]))
    {
      hide HeapFrom, Split, Sorted, Permuted;
      ghost var s := a[..];
      Swap(a, 1, i);
      RootOut(s, a[..], compare, i);
      ghost var t := a[..];
      Heapify(a, 1, i - 1, compare);
      HeapifyKeeps(t, a[..], compare, i - 1);
      i := i - 1;
    }
    AllSorted(a[..], compare, i);
  }

  lemma AllSorted<E>(s: seq<E>, compare: (E, E) -> int, i: nat)
    requires i <= 1 && i <= |s| && Split(s, compare, i) && Sorted(s[i..], compare)
    ensures Sorted(s, compare)
  {
    assert i == 1 ==> s == [s[0]] + s[1..];
    assert i == 0 ==> s == s[0..];
  }

  /** The root goes behind the heap. */
  lemma RootOut<E(!new)>(s: seq<E>, t: seq<E>, compare: (E, E) -> int, i: nat)
    requires TotalPreorder(compare) && 1 < i <= |s| && HeapFrom(s, compare, 1, i) && t == Swapped(s, 1, i)
    requires Split(s, compare, i) && Sorted(s[i..], compare)
    ensures HeapFrom(t, compare, 2, i - 1) && Split(t, compare, i - 1) && Sorted(t[i - 1..], compare)
    ensures multiset(t) == multiset(s)
  {
    forall k | 2 <= k <= i - 1 && 2 <= k / 2
      ensures Below(t, compare, k)
    {
      assert Below(s, compare, k);
    }
    RootSplit(s, t, compare, i);
    assert t[i - 1..] == [s[0]] + s[i..];
  }

  lemma RootSplit<E(!new)>(s: seq<E>, t: seq<E>, compare: (E, E) -> int, i: nat)
    requires TotalPreorder(compare) && 1 < i <= |s| && HeapFrom(s, compare, 1, i) && t == Swapped(s, 1, i)
    requires Split(s, compare, i)
    ensures Split(t, compare, i - 1)
  {
    forall p, q | 0 <= p < i - 1 <= q < |t|
      ensures compare(t[p], t[q]) <= 0
    {
      var p' := if p == 0 then i - 1 else p;
      assert t[p] == s[p'];
      if q == i - 1 {
        RootGreatest(s, compare, i, p' + 1);
      } else {
        assert t[q] == s[q];
      }
    }
  }

  lemma HeapifyKeeps<E(!new)>(s: seq<E>, t: seq<E>, compare: (E, E) -> int, n: nat)
    requires Permuted(s, t, n) && Split(s, compare, n) && Sorted(s[n..], compare)
    ensures Split(t, compare, n) && Sorted(t[n..], compare) && multiset(t) == multiset(s)
  {
    SplitKept(s, t, compare, n);
    Whole(s, t, n);
  }

  /** binary_search: the index of a match, or None exactly if there is none. */
  method BinarySearch<K(!new), E(!new)>(key: K, a: array<E>, compare: (K, E) -> int) returns (r: Option<nat>)
    requires forall i, j | 0 <= i < j < a.Length :: (compare(key, a[i]) < 0 ==> compare(key, a[j]) < 0)
                                                    && (compare(key, a[j]) > 0 ==> compare(key, a[i]) > 0)
    ensures r.Some? ==> r.value < a.Length && compare(key, a[r.value]) == 0
    ensures r.None? <==> forall i | 0 <= i < a.Length :: compare(key, a[i]) != 0
  {
    var first, last := 0, a.Length;
    while first < last
      invariant 0 <= first <= last <= a.Length
      invariant forall i | 0 <= i < first :: compare(key, a[i]) > 0
      invariant forall i | last <= i < a.Length :: compare(key, a[i]) < 0
    {
      var range := last - first;
      var middle := first + range / 2;
      var cmp := compare(key, a[middle]);
      if cmp < 0 {
        last := middle;
      } else if cmp > 0 {
        first := middle + 1;
      } else {
        return Some(middle);
      }
    }
    return None;
  }
}

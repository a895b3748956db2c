/** The mathematics of a stable merge sort on sequences of distinct elements, and the
    reference it is compared with: insertion of the elements one at a time, each after
    everything it is not strictly less than. Nothing here touches the heap; `List` proves
    its pointer operations against these definitions. */
module StableSort {
  import opened Common

  /** `less` is a strict weak order on the elements of `dom`. */
  ghost predicate StrictWeak<E>(less: (E, E) -> bool, dom: set<E>) {
    forall x, y, z {:trigger Cotransitive(less, x, y, z)} | x in dom && y in dom && z in dom ::
      Cotransitive(less, x, y, z)
  }

  /** A strictly ordered pair is not ordered the other way, and any third element is on the
      far side of one of the two. */
  ghost predicate Cotransitive<E>(less: (E, E) -> bool, x: E, y: E, z: E) {
    less(x, y) ==> !less(y, x) && (less(x, z) || less(z, y))
  }

  ghost function Elements<E>(s: seq<E>): (r: set<E>) {
    set x | x in s
  }

  /** The elements lo..hi (exclusive) of `s` are in nondecreasing order. */
  ghost predicate SortedRange<E>(s: seq<E>, lo: int, hi: int, less: (E, E) -> bool)
    requires 0 <= lo && hi <= |s|
  {
    forall i, j {:trigger less(s[j], s[i])} | lo <= i < j < hi :: !less(s[j], s[i])
  }

  ghost predicate Sorted<E>(s: seq<E>, less: (E, E) -> bool) {
    SortedRange(s, 0, |s|, less)
  }

  /** The position of `x` in `s`. */
  ghost function Pos<E>(s: seq<E>, x: E): (p: nat)
    requires x in s
    ensures p < |s| && s[p] == x
  {
    var p :| 0 <= p < |s| && s[p] == x;
    p
  }

  /** `cur` rearranges `orig`, and every pair whose order it changed is strictly ordered:
      no two elements that compare equal have changed places. */
  ghost predicate StableImage<E>(orig: seq<E>, cur: seq<E>, less: (E, E) -> bool) {
    && Separate(orig) && Separate(cur)
    && |cur| == |orig|
    && Elements(cur) == Elements(orig)
    && forall i, j {:trigger InOrder(orig, cur[i], cur[j], less)} | 0 <= i < j < |cur| ::
         InOrder(orig, cur[i], cur[j], less)
  }

  ghost predicate InOrder<E>(orig: seq<E>, x: E, y: E, less: (E, E) -> bool) {
    x in orig && y in orig && (less(x, y) || Pos(orig, x) < Pos(orig, y))
  }

  // ----- The reference: insertion in order -----

  /** The first position at or after `from` whose element is strictly greater than `x`. */
  ghost function InsertPoint<E>(s: seq<E>, x: E, from: nat, less: (E, E) -> bool): (p: nat)
    requires from <= |s|
    ensures from <= p <= |s|
    ensures p < |s| ==> less(x, s[p])
    ensures forall i | from <= i < p :: !less(x, s[i])
    decreases |s| - from
  {
    if from == |s| || less(x, s[from]) then from else InsertPoint(s, x, from + 1, less)
  }

  ghost function InsertOrdered<E>(s: seq<E>, x: E, less: (E, E) -> bool): (r: seq<E>)
    ensures |r| == |s| + 1
  {
    var p := InsertPoint(s, x, 0, less);
    s[..p] + [x] + s[p..]
  }

  ghost function InsertionSort<E>(s: seq<E>, less: (E, E) -> bool): (r: seq<E>)
    ensures |r| == |s|
  {
    if s == [] then []
    else InsertOrdered(InsertionSort(s[..|s| - 1], less), s[|s| - 1], less)
  }

  /** The reference itself is a stable sort. */
  lemma {:induction false} InsertionSortIsStable<E>(s: seq<E>, less: (E, E) -> bool)
    requires NoDup(s) && StrictWeak(less, Elements(s))
    ensures StableImage(s, InsertionSort(s, less), less)
    ensures Sorted(InsertionSort(s, less), less)
  {
    if s != [] {
      var n := |s| - 1;
      assert s == s[..n] + [s[n]];
      assert Elements(s) == Elements(s[..n]) + {s[n]};
      InsertionSortIsStable(s[..n], less);
      InsertionStep(s[..n], s[n], InsertionSort(s[..n], less), less);
    }
  }

  lemma InsertionStep<E>(pre: seq<E>, x: E, t: seq<E>, less: (E, E) -> bool)
    requires NoDup(pre + [x]) && StrictWeak(less, Elements(pre) + {x})
    requires StableImage(pre, t, less) && Sorted(t, less)
    ensures StableImage(pre + [x], InsertOrdered(t, x, less), less)
    ensures Sorted(InsertOrdered(t, x, less), less)
  {
    var p := InsertPoint(t, x, 0, less);
    var r := InsertOrdered(t, x, less);
    InsertKeepsOrder(t, x, less, p);
    InsertElements(t, x, p);
    assert Elements(pre + [x]) == Elements(pre) + {x};
    NotInPrefix(pre, x);
    assert x in t ==> x in Elements(t);
    forall i, j | 0 <= i < j < |r|
      ensures InOrder(pre + [x], r[i], r[j], less)
    {
      InsertedInOrder(pre, x, t, p, i, j, less);
    }
  }

  lemma InsertElements<E>(t: seq<E>, x: E, p: nat)
    requires p <= |t|
    ensures Elements(t[..p] + [x] + t[p..]) == Elements(t) + {x}
    ensures NoDup(t) && x !in t ==> NoDup(t[..p] + [x] + t[p..])
  {
    assert t == t[..p] + t[p..];
    assert Elements(t[..p] + [x] + t[p..]) == Elements(t[..p]) + {x} + Elements(t[p..]);
    assert Elements(t) == Elements(t[..p]) + Elements(t[p..]);
  }

  lemma InsertedInOrder<E>(pre: seq<E>, x: E, t: seq<E>, p: nat, i: nat, j: nat, less: (E, E) -> bool)
    requires NoDup(pre + [x]) && StableImage(pre, t, less) && p <= |t|
    requires forall k | p <= k < |t| :: less(x, t[k])
    requires i < j <= |t|
    ensures var r := t[..p] + [x] + t[p..]; InOrder(pre + [x], r[i], r[j], less)
  {
    var r := t[..p] + [x] + t[p..];
    assert forall k | 0 <= k < |t| :: t[k] in Elements(t);
    NotInPrefix(pre, x);
    if i == p {
      assert r[i] == x && r[j] == t[j - 1];
      assert r[j] in pre && r[j] in pre + [x];
    } else if j == p {
      assert r[j] == x && r[i] == t[i];
      PosInPrefix(pre, x, pre + [x], x);
      PosInPrefix(pre, x, pre + [x], t[i]);
    } else {
      var i', j' := if i < p then i else i - 1, if j < p then j else j - 1;
      assert r[i] == t[i'] && r[j] == t[j'] && InOrder(pre, t[i'], t[j'], less);
      PosInPrefix(pre, x, pre + [x], t[i']);
      PosInPrefix(pre, x, pre + [x], t[j']);
    }
  }

  /** Inserting before the first strictly greater element keeps a sorted sequence sorted, and
      everything behind the insertion point is strictly greater than the newcomer. */
  lemma InsertKeepsOrder<E>(t: seq<E>, x: E, less: (E, E) -> bool, p: nat)
    requires Sorted(t, less) && StrictWeak(less, Elements(t) + {x})
    requires p == InsertPoint(t, x, 0, less)
    ensures Sorted(InsertOrdered(t, x, less), less)
    ensures forall i | p <= i < |t| :: less(x, t[i])
  {
    assert forall k | 0 <= k < |t| :: t[k] in Elements(t);
    forall i | p <= i < |t|
      ensures less(x, t[i]) && !less(t[i], x)
    {
      assert Cotransitive(less, x, t[p], t[i]) && Cotransitive(less, x, t[i], x);
    }
    SortedInsert(t, x, less, p);
  }

  lemma SortedInsert<E>(t: seq<E>, x: E, less: (E, E) -> bool, p: nat)
    requires Sorted(t, less) && p <= |t|
    requires forall i | 0 <= i < p :: !less(x, t[i])
    requires forall i | p <= i < |t| :: !less(t[i], x)
    ensures Sorted(t[..p] + [x] + t[p..], less)
  {
    var r := t[..p] + [x] + t[p..];
    forall i, j | 0 <= i < j < |r|
      ensures !less(r[j], r[i])
    {
      assert i < p ==> r[i] == t[i];
      assert p < i ==> r[i] == t[i - 1];
      assert j < p ==> r[j] == t[j];
      assert p < j ==> r[j] == t[j - 1];
    }
  }

  lemma NotInPrefix<E>(pre: seq<E>, x: E)
    requires NoDup(pre + [x])
    ensures x !in pre && x in pre + [x]
  {
    assert (pre + [x])[|pre|] == x;
    assert forall i | 0 <= i < |pre| :: (pre + [x])[i] == pre[i];
  }

  lemma PosInPrefix<E>(pre: seq<E>, x: E, s: seq<E>, y: E)
    requires s == pre + [x] && NoDup(s) && (y in pre || y == x)
    ensures y in s
    ensures y == x ==> Pos(s, y) == |pre|
    ensures y != x ==> y in pre && Pos(s, y) == Pos(pre, y)
  {
    assert s[|pre|] == x;
    if y != x { assert s[Pos(pre, y)] == y; }
  }

  /** A sorted stable image is unique, so it is the reference. */
  lemma SortedStableIsInsertionSort<E>(orig: seq<E>, cur: seq<E>, less: (E, E) -> bool)
    requires StableImage(orig, cur, less) && Sorted(cur, less) && StrictWeak(less, Elements(orig))
    ensures cur == InsertionSort(orig, less)
  {
    SeparateIsNoDup(orig);
    InsertionSortIsStable(orig, less);
    UniqueStableSort(orig, cur, InsertionSort(orig, less), less);
  }

  /** In a sorted stable image a pair in order is never the other way round in another. */
  ghost predicate Follows<E>(orig: seq<E>, s: seq<E>, less: (E, E) -> bool) {
    && NoDup(s)
    && forall i, j | 0 <= i < j < |s| ::
         !less(s[j], s[i]) && InOrder(orig, s[i], s[j], less)
  }

  lemma UniqueStableSort<E>(orig: seq<E>, a: seq<E>, b: seq<E>, less: (E, E) -> bool)
    requires StableImage(orig, a, less) && Sorted(a, less)
    requires StableImage(orig, b, less) && Sorted(b, less)
    ensures a == b
  {
    SeparateIsNoDup(a);
    SeparateIsNoDup(b);
    forall i, j | 0 <= i < j < |a|
      ensures InOrder(orig, a[i], a[j], less) && InOrder(orig, b[i], b[j], less)
    {
    }
    UniqueFollows(orig, a, b, less);
  }

  lemma HeadFirst<E>(orig: seq<E>, s: seq<E>, j: nat, less: (E, E) -> bool)
    requires Follows(orig, s, less) && j < |s|
    ensures j != 0 ==> InOrder(orig, s[0], s[j], less) && !less(s[j], s[0])
  {
  }

  lemma {:induction false} UniqueFollows<E>(orig: seq<E>, a: seq<E>, b: seq<E>, less: (E, E) -> bool)
    requires Follows(orig, a, less) && Follows(orig, b, less)
    requires Elements(a) == Elements(b)
    ensures a == b
    decreases |a|
  {
    assert a != [] ==> a[0] in Elements(b);
    assert b != [] ==> b[0] in Elements(a);
    if a != [] {
      var k, j := Pos(b, a[0]), Pos(a, b[0]);
      HeadFirst(orig, b, k, less);
      HeadFirst(orig, a, j, less);
      assert a == [a[0]] + a[1..] && b == [a[0]] + b[1..];
      assert Elements(a[1..]) == Elements(a) - {a[0]};
      assert Elements(b[1..]) == Elements(b) - {a[0]};
      UniqueFollows(orig, a[1..], b[1..], less);
    }
  }

  // ----- Merging by moving single elements -----

  /** Element `m` taken out and put back just before position `p`. */
  ghost function Move<E>(s: seq<E>, p: nat, m: nat): (r: seq<E>)
    requires p <= m < |s|
    ensures |r| == |s|
    ensures forall i | 0 <= i < p :: r[i] == s[i]
    ensures r[p] == s[m]
    ensures forall i | p < i <= m :: r[i] == s[i - 1]
    ensures forall i | m < i < |s| :: r[i] == s[i]
  {
    s[..p] + [s[m]] + s[p..m] + s[m + 1..]
  }

  lemma MoveElements<E>(s: seq<E>, p: nat, m: nat)
    requires p <= m < |s|
    ensures Elements(Move(s, p, m)) == Elements(s)
    ensures NoDup(s) ==> NoDup(Move(s, p, m))
  {
    var r := Move(s, p, m);
    forall x | x in s ensures x in r {
      var i := Pos(s, x);
      if i < p || m < i { assert r[i] == x; } else if i == m { assert r[p] == x; } else { assert r[i + 1] == x; }
    }
    forall x | x in r ensures x in s {
      var i := Pos(r, x);
      if i < p || m < i { assert s[i] == x; } else if i == p { assert s[m] == x; } else { assert s[i - 1] == x; }
    }
  }

  /** Moving an element only past strictly greater ones changes no pair that compares equal. */
  lemma MoveKeepsStable<E>(orig: seq<E>, s: seq<E>, p: nat, m: nat, less: (E, E) -> bool)
    requires StableImage(orig, s, less) && p <= m < |s|
    requires forall q | p <= q < m :: less(s[m], s[q])
    ensures StableImage(orig, Move(s, p, m), less)
  {
    SeparateIsNoDup(s);
    MoveElements(s, p, m);
    SeparateIsNoDup(Move(s, p, m));
    var r := Move(s, p, m);
    forall i, j | 0 <= i < j < |r|
      ensures InOrder(orig, r[i], r[j], less)
    {
      MovedInOrder(orig, s, p, m, i, j, less);
    }
  }

  lemma MovedInOrder<E>(orig: seq<E>, s: seq<E>, p: nat, m: nat, i: nat, j: nat, less: (E, E) -> bool)
    requires StableImage(orig, s, less) && p <= m < |s| && i < j < |s|
    requires forall q | p <= q < m :: less(s[m], s[q])
    ensures InOrder(orig, Move(s, p, m)[i], Move(s, p, m)[j], less)
  {
    var r, i', j' := Move(s, p, m), OldIndex(p, m, i), OldIndex(p, m, j);
    assert r[i] == s[i'] && r[j] == s[j'];
    assert s[i'] in Elements(s) && s[j'] in Elements(s);
    if i' < j' { assert InOrder(orig, s[i'], s[j'], less); }
    else { assert i == p && j <= m && less(s[m], s[j - 1]); }
  }

  ghost function OldIndex(p: nat, m: nat, i: int): int {
    if i < p || m < i then i else if i == p then m else i - 1
  }

  /** The state of a merge: lo..m holds the merged prefix lo..i and what is left of the first
      run, m..hi what is left of the second, and the merged prefix is below the second run. */
  ghost predicate Merging<E>(s: seq<E>, lo: nat, i: nat, m: nat, hi: nat, less: (E, E) -> bool) {
    && lo <= i <= m <= hi <= |s|
    && SortedRange(s, lo, m, less)
    && SortedRange(s, m, hi, less)
    && forall p, q {:trigger less(s[q], s[p])} | lo <= p < i && m <= q < hi :: !less(s[q], s[p])
  }

  lemma MergeAdvance<E>(s: seq<E>, lo: nat, i: nat, m: nat, hi: nat, less: (E, E) -> bool)
    requires Merging(s, lo, i, m, hi, less) && i < m < hi && !less(s[m], s[i])
    requires StrictWeak(less, Elements(s))
    ensures Merging(s, lo, i + 1, m, hi, less)
  {
    assert forall k | 0 <= k < |s| :: s[k] in Elements(s);
    forall q | m <= q < hi
      ensures !less(s[q], s[i])
    {
      assert Cotransitive(less, s[q], s[i], s[m]);
    }
  }

  lemma MergeMove<E>(s: seq<E>, lo: nat, i: nat, m: nat, hi: nat, less: (E, E) -> bool)
    requires Merging(s, lo, i, m, hi, less) && i < m < hi && less(s[m], s[i])
    requires StrictWeak(less, Elements(s))
    ensures forall q | i <= q < m :: less(s[m], s[q])
    ensures Merging(Move(s, i, m), lo, i + 1, m + 1, hi, less)
  {
    assert forall k | 0 <= k < |s| :: s[k] in Elements(s);
    forall q | i <= q < m
      ensures less(s[m], s[q])
    {
      assert Cotransitive(less, s[m], s[i], s[q]);
    }
    var r := Move(s, i, m);
    forall p, q | lo <= p < q < m + 1
      ensures !less(r[q], r[p])
    {
      if p == i { assert Cotransitive(less, s[m], s[q - 1], s[m]); }
      else if q == i { assert r[q] == s[m] && r[p] == s[p]; }
    }
    forall p, q | lo <= p < i + 1 && m + 1 <= q < hi
      ensures !less(r[q], r[p])
    {
    }
  }

  // ----- Runs -----

  /** Position n starts a new maximal nondecreasing run. */
  ghost predicate StartsRun<E>(s: seq<E>, n: nat, less: (E, E) -> bool)
    requires n < |s|
  {
    n == 0 || less(s[n], s[n - 1])
  }

  /** The number of maximal runs that start in the first n elements. */
  ghost function Runs<E>(s: seq<E>, n: nat, less: (E, E) -> bool): (k: nat)
    requires n <= |s|
  {
    if n == 0 then 0 else Runs(s, n - 1, less) + if StartsRun(s, n - 1, less) then 1 else 0
  }

  /** s[a..b] is in order and cannot be extended to the right. */
  ghost predicate IsRun<E>(s: seq<E>, a: nat, b: nat, less: (E, E) -> bool) {
    && a < b <= |s|
    && (forall i | a < i < b :: !less(s[i], s[i - 1]))
    && (b < |s| ==> less(s[b], s[b - 1]))
  }

  lemma {:induction false} RunsAfterRun<E>(s: seq<E>, a: nat, b: nat, less: (E, E) -> bool)
    requires a < b <= |s| && StartsRun(s, a, less) && forall i | a < i < b :: !less(s[i], s[i - 1])
    ensures Runs(s, b, less) == 1 + Runs(s, a, less)
    decreases b
  {
    if a + 1 < b { RunsAfterRun(s, a, b - 1, less); }
  }

  lemma {:induction false} RunIsSorted<E>(s: seq<E>, a: nat, b: nat, less: (E, E) -> bool)
    requires a <= b <= |s| && (forall i | a < i < b :: !less(s[i], s[i - 1]))
    requires StrictWeak(less, Elements(s))
    ensures SortedRange(s, a, b, less)
    decreases b - a
  {
    assert forall k | 0 <= k < |s| :: s[k] in Elements(s);
    if a + 1 < b {
      RunIsSorted(s, a, b - 1, less);
      forall i, j | a <= i < j < b
        ensures !less(s[j], s[i])
      {
        assert Cotransitive(less, s[j], s[i], s[b - 2]);
      }
    }
  }

  /** Only the first n elements matter to the runs that start there. */
  lemma {:induction false} RunsSamePrefix<E>(s: seq<E>, t: seq<E>, n: nat, less: (E, E) -> bool)
    requires n <= |s| && n <= |t| && forall i | 0 <= i < n :: s[i] == t[i]
    ensures Runs(s, n, less) == Runs(t, n, less)
  {
    if n > 0 { RunsSamePrefix(s, t, n - 1, less); }
  }

  /** A sorted stretch adds at most one run. */
  lemma {:induction false} RunsSortedStretch<E>(s: seq<E>, a: nat, b: nat, less: (E, E) -> bool)
    requires a <= b <= |s| && SortedRange(s, a, b, less)
    ensures Runs(s, b, less) <= 1 + Runs(s, a, less)
    decreases b
  {
    if a + 1 < b {
      assert !less(s[b - 1], s[b - 2]);
      RunsSortedStretch(s, a, b - 1, less);
    }
  }

  lemma {:induction false} RunsPositive<E>(s: seq<E>, n: nat, less: (E, E) -> bool)
    requires 0 < n <= |s|
    ensures Runs(s, n, less) >= 1
  {
    if n > 1 { RunsPositive(s, n - 1, less); }
  }

  /** One run left means the whole sequence is in order. */
  lemma {:induction false} OneRunOrdered<E>(s: seq<E>, n: nat, less: (E, E) -> bool)
    requires n <= |s| && Runs(s, n, less) <= 1
    ensures forall i | 0 < i < n :: !less(s[i], s[i - 1])
  {
    if n > 1 {
      RunsPositive(s, n - 1, less);
      OneRunOrdered(s, n - 1, less);
    }
  }
}

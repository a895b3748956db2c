/** Intrusive doubly linked lists with two header elements, rewired in place
    (src/lib/kernel/list.c). The static operations of the source work on a chain of elements,
    carried here as a ghost sequence `s` that starts with the head and ends with the tail;
    the class `List` owns such a chain and specifies its operations by what they do to the
    interior elements `Contents()`. Comparison functions take elements, as in the source: they
    may read the structures the elements are embedded in, which no list operation changes. */
module List {
  import opened Common
  import opened StableSort

  class Elem {
    var prev: Elem?
    var next: Elem?

    constructor ()
      ensures prev == null && next == null
    {
      prev, next := null, null;
    }
  }

  /** The elements of `s` are chained in both directions; nothing is said about the ends. */
  ghost predicate Chained(s: seq<Elem>)
    reads s
  {
    && Separate(s)
    && (forall i {:trigger s[i].next} | 0 <= i < |s| - 1 :: s[i].next == s[i + 1])
    && (forall i {:trigger s[i].prev} | 1 <= i < |s| :: s[i].prev == s[i - 1])
  }

  /** A whole list: a chain of at least the two headers, with null links at both ends. */
  ghost predicate Linked(s: seq<Elem>)
    reads s
  {
    && |s| >= 2 && Chained(s)
    && s[0].prev == null
    && s[|s| - 1].next == null
  }

  /** The interior of a chain. */
  ghost function Inner<E>(s: seq<E>): (r: seq<E>)
    requires |s| >= 2
    ensures |r| == |s| - 2 && forall i | 0 <= i < |r| :: r[i] == s[i + 1]
  {
    s[1..|s| - 1]
  }

  /** `t` has the same headers and the same elements as `s`. */
  ghost predicate SameEnds<E>(s: seq<E>, t: seq<E>) {
    |s| >= 2 && |t| == |s| && t[0] == s[0] && t[|t| - 1] == s[|s| - 1] && Elements(t) == Elements(s)
  }

  ghost predicate Apart<E>(s: seq<E>, t: seq<E>) {
    forall i, j | 0 <= i < |s| && 0 <= j < |t| :: s[i] != t[j]
  }

  // ----- Insertion and removal -----

  /** list_insert: `elem`, which is in no list, goes just before `before`. */
  method InsertChain(before: Elem, elem: Elem, ghost s: seq<Elem>, ghost k: nat) returns (ghost t: seq<Elem>)
    requires Linked(s) && 0 < k < |s| && s[k] == before && elem !in s
    modifies s[k - 1], s[k], elem
    ensures Linked(t) && t == s[..k] + [elem] + s[k..]
  {
    SeparateIsNoDup(s);
    elem.prev := before.prev;
    elem.next := before;
    before.prev.next := elem;
    before.prev := elem;
    t := s[..k] + [elem] + s[k..];
    SeparateIsNoDup(t);
  }

  /** list_remove: takes an interior element out and returns its successor. */
  method RemoveChain(elem: Elem, ghost s: seq<Elem>, ghost k: nat) returns (next: Elem, ghost t: seq<Elem>)
    requires Linked(s) && 0 < k < |s| - 1 && s[k] == elem
    modifies s[k - 1], s[k + 1]
    ensures Linked(t) && t == s[..k] + s[k + 1..] && next == t[k]
  {
    SeparateIsNoDup(s);
    elem.prev.next := elem.next;
    elem.next.prev := elem.prev;
    next := elem.next;
    t := s[..k] + s[k + 1..];
    SeparateIsNoDup(t);
  }

  // ----- Splicing -----

  /** First half of list_splice: takes s[i..j] out of the chain `s`. */
  method Detach(first: Elem, lst: Elem, ghost s: seq<Elem>, ghost i: nat, ghost j: nat)
    requires Linked(s) && 1 <= i < j < |s| && s[i] == first && s[j - 1] == lst
    modifies s[i - 1], s[j]
    ensures Linked(s[..i] + s[j..]) && Chained(s[i..j]) && Apart(s[..i] + s[j..], s[i..j])
  {
    SeparateIsNoDup(s);
    first.prev.next := lst.next;
    lst.next.prev := first.prev;
    SeparateIsNoDup(s[..i] + s[j..]);
    SeparateIsNoDup(s[i..j]);
  }

  /** Second half: puts the chain `seg` just before `before` in the chain `t`. */
  method Attach(before: Elem, first: Elem, lst: Elem, ghost t: seq<Elem>, ghost k: nat, ghost seg: seq<Elem>)
    requires Linked(t) && Chained(seg) && 1 <= k < |t| && |seg| > 0 && Apart(t, seg)
    requires t[k] == before && seg[0] == first && seg[|seg| - 1] == lst
    modifies t[k - 1], t[k], first, lst
    ensures Linked(t[..k] + seg + t[k..])
  {
    SeparateIsNoDup(t);
    SeparateIsNoDup(seg);
    first.prev := before.prev;
    lst.next := before;
    before.prev.next := first;
    before.prev := lst;
    SeparateIsNoDup(t[..k] + seg + t[k..]);
  }

  /** The elements i..j of `s` taken out and put back before what was element k. */
  ghost function Spliced<E>(s: seq<E>, i: nat, j: nat, k: nat): (r: seq<E>)
    requires i <= j <= |s| && k <= |s| && (i < j ==> k < i || j <= k)
  {
    var rest, at := s[..i] + s[j..], if k <= i then k else k - (j - i);
    rest[..at] + s[i..j] + rest[at..]
  }

  lemma SplicedSame<E>(s: seq<E>, i: nat, j: nat, k: nat)
    requires 0 < i <= j < |s| && 0 < k < |s| && (i < j ==> k < i || j <= k)
    ensures SameEnds(s, Spliced(s, i, j, k))
    ensures i == j ==> Spliced(s, i, j, k) == s
  {
    var rest, at := s[..i] + s[j..], if k <= i then k else k - (j - i);
    assert s == s[..i] + s[i..j] + s[j..];
    assert Elements(s) == Elements(s[..i]) + Elements(s[i..j]) + Elements(s[j..]);
    assert Elements(rest) == Elements(s[..i]) + Elements(s[j..]);
    assert rest == rest[..at] + rest[at..];
    assert Elements(rest) == Elements(rest[..at]) + Elements(rest[at..]);
    assert Elements(Spliced(s, i, j, k)) == Elements(rest[..at]) + Elements(s[i..j]) + Elements(rest[at..]);
  }

  /** list_splice within one list: the elements first..last (exclusive) are moved to just
      before `before`, which may be `last` but must not lie inside the moved range. */
  method Splice(before: Elem, first: Elem, last: Elem, ghost s: seq<Elem>,
                ghost i: nat, ghost j: nat, ghost k: nat) returns (ghost t: seq<Elem>)
    requires Linked(s) && 0 < i <= j < |s| && 0 < k < |s| && (i < j ==> k < i || j <= k)
    requires s[k] == before && s[i] == first && s[j] == last
    modifies Elements(s)
    ensures Linked(t) && t == Spliced(s, i, j, k) && SameEnds(s, t)
  {
    t := Spliced(s, i, j, k);
    SplicedSame(s, i, j, k);
    if first == last {
      SeparateIsNoDup(s);
      return;
    }
    ghost var seg, rest, at := s[i..j], s[..i] + s[j..], if k < i then k else k - (j - i);
    var lst := last.prev;
    Detach(first, lst, s, i, j);
    Attach(before, first, lst, rest, at, seg);
  }

  /** list_splice from one list into another. */
  method SpliceInto(before: Elem, first: Elem, last: Elem, ghost s: seq<Elem>, ghost i: nat, ghost j: nat,
                    ghost u: seq<Elem>, ghost k: nat)
    requires Linked(s) && Linked(u) && Apart(s, u) && 0 < i <= j < |s| && 0 < k < |u|
    requires u[k] == before && s[i] == first && s[j] == last
    modifies Elements(s), Elements(u)
    ensures Linked(s[..i] + s[j..]) && Linked(u[..k] + s[i..j] + u[k..]) && Apart(s[..i] + s[j..], u[..k] + s[i..j] + u[k..])
  {
    SeparateIsNoDup(s);
    if first == last {
      assert s[..i] + s[j..] == s && u[..k] + s[i..j] + u[k..] == u;
      return;
    }
    ghost var seg, rest := s[i..j], s[..i] + s[j..];
    var lst := last.prev;
    Detach(first, lst, s, i, j);
    assert Linked(u) && Apart(u, seg) && Apart(rest, u);
    Attach(before, first, lst, u, k, seg);
    assert forall x | 0 <= x < |rest| :: rest[x] != first && rest[x] != lst && rest[x] != u[k - 1] && rest[x] != u[k];
  }

  // ----- Merge sort -----

  /** find_end_of_run: the exclusive end of the maximal run starting at `a`. */
  method FindEndOfRun(a: Elem, tail: Elem, less: (Elem, Elem) -> bool, ghost s: seq<Elem>, ghost i: nat)
    returns (e: Elem, ghost k: nat)
    requires Linked(s) && tail == s[|s| - 1] && i < |s| - 2 && s[i + 1] == a
    ensures i < k < |s| - 1 && s[k + 1] == e && IsRun(Inner(s), i, k, less)
  {
    SeparateIsNoDup(s);
    e, k := a.next, i + 1;
    while e != tail && !less(e, e.prev)
      invariant i < k < |s| - 1 && s[k + 1] == e
      invariant forall x | i < x < k :: !less(Inner(s)[x], Inner(s)[x - 1])
      decreases |s| - k
    {
      e, k := e.next, k + 1;
    }
  }

  lemma SplicedOne<E>(s: seq<E>, i: nat, m: nat)
    requires i < m < |s| - 2
    ensures var t := Spliced(s, m + 1, m + 2, i + 1);
            && |t| == |s|
            && t[i + 2] == s[i + 1]
            && (forall k | m + 1 < k < |s| :: t[k] == s[k])
            && Inner(t) == Move(Inner(s), i, m)
  {
    var t := Spliced(s, m + 1, m + 2, i + 1);
    assert t == s[..i + 1] + [s[m + 1]] + s[i + 1..m + 1] + s[m + 2..];
    assert Inner(s)[i..m] == s[i + 1..m + 1];
    assert Inner(s)[m + 1..] == s[m + 2..|s| - 1];
  }

  /** The splice step of inplace_merge: the first element of the second run goes before `a0`. */
  method MoveBefore(a0: Elem, b0: Elem, ghost s: seq<Elem>, ghost i: nat, ghost m: nat)
    returns (next: Elem, ghost t: seq<Elem>)
    requires Linked(s) && i < m < |s| - 2 && s[i + 1] == a0 && s[m + 1] == b0
    modifies Elements(s)
    ensures Linked(t) && SameEnds(s, t) && Inner(t) == Move(Inner(s), i, m)
    ensures t[m + 2] == next && t[i + 2] == a0
    ensures forall k | m + 1 < k < |s| :: t[k] == s[k]
  {
    next := b0.next;
    t := Splice(a0, next.prev, next, s, m + 1, m + 2, i + 1);
    SplicedOne(s, i, m);
  }

  /** The invariant of inplace_merge: `s` is reached from `s0` by moves inside lo..hi only. */
  ghost predicate MergeState<E>(orig: seq<E>, s0: seq<E>, s: seq<E>, lo: nat, i: nat, m: nat, hi: nat,
                                less: (E, E) -> bool) {
    && |s| == |s0|
    && Merging(s, lo, i, m, hi, less)
    && StableImage(orig, s, less)
    && forall x | 0 <= x < lo || hi <= x < |s| :: s[x] == s0[x]
  }

  lemma MergeStateAdvance<E>(orig: seq<E>, s0: seq<E>, s: seq<E>, lo: nat, i: nat, m: nat, hi: nat,
                             less: (E, E) -> bool)
    requires MergeState(orig, s0, s, lo, i, m, hi, less) && i < m < hi && !less(s[m], s[i])
    requires StrictWeak(less, Elements(orig))
    ensures MergeState(orig, s0, s, lo, i + 1, m, hi, less)
  {
    MergeAdvance(s, lo, i, m, hi, less);
  }

  lemma MergeStateMove<E>(orig: seq<E>, s0: seq<E>, s: seq<E>, lo: nat, i: nat, m: nat, hi: nat,
                          less: (E, E) -> bool)
    requires MergeState(orig, s0, s, lo, i, m, hi, less) && i < m < hi && less(s[m], s[i])
    requires StrictWeak(less, Elements(orig))
    ensures MergeState(orig, s0, Move(s, i, m), lo, i + 1, m + 1, hi, less)
  {
    MergeMove(s, lo, i, m, hi, less);
    MoveKeepsStable(orig, s, i, m, less);
  }

  lemma MergeStateDone<E>(orig: seq<E>, s0: seq<E>, s: seq<E>, lo: nat, i: nat, m: nat, hi: nat,
                          less: (E, E) -> bool)
    requires MergeState(orig, s0, s, lo, i, m, hi, less) && (i == m || m == hi)
    ensures MergeState(orig, s0, s, lo, hi, hi, hi, less)
  {
  }

  /** inplace_merge: merges the adjacent runs a0..a1b0 and a1b0..b1 (exclusive). */
  method InplaceMerge(a0': Elem, a1b0': Elem, b1: Elem, less: (Elem, Elem) -> bool, ghost s: seq<Elem>,
                      ghost lo: nat, ghost mid: nat, ghost hi: nat, ghost orig: seq<Elem>)
    returns (ghost t: seq<Elem>)
    requires Linked(s) && lo < mid < hi < |s| - 1 && s[lo + 1] == a0' && s[mid + 1] == a1b0' && s[hi + 1] == b1
    requires MergeState(orig, Inner(s), Inner(s), lo, lo, mid, hi, less)
    requires StrictWeak(less, Elements(orig))
    modifies Elements(s)
    ensures Linked(t) && SameEnds(s, t) && t[hi + 1] == b1
    ensures MergeState(orig, Inner(s), Inner(t), lo, hi, hi, hi, less)
  {
    var a0: Elem, a1b0: Elem := a0', a1b0';
    ghost var i, m := lo, mid;
    t := s;
    while a0 != a1b0 && a1b0 != b1
      invariant Linked(t) && SameEnds(s, t)
      invariant lo <= i <= m <= hi && t[i + 1] == a0 && t[m + 1] == a1b0 && t[hi + 1] == b1
      invariant MergeState(orig, Inner(s), Inner(t), lo, i, m, hi, less)
      decreases hi - i
    {
      if !less(a1b0, a0) {
        MergeStateAdvance(orig, Inner(s), Inner(t), lo, i, m, hi, less);
        a0 := a0.next;
      } else {
        MergeStateMove(orig, Inner(s), Inner(t), lo, i, m, hi, less);
        a1b0, t := MoveBefore(a0, a1b0, t, i, m);
        m := m + 1;
      }
      i := i + 1;
    }
    SeparateIsNoDup(t);
    MergeStateDone(orig, Inner(s), Inner(t), lo, i, m, hi, less);
  }

  /** One pass of list_sort: at `done`, `out` runs have been output, two runs of the sequence
      `s0` at the start of the pass went into each, and what follows is untouched. */
  ghost predicate InPass<E>(orig: seq<E>, s0: seq<E>, s: seq<E>, done: nat, out: nat, less: (E, E) -> bool) {
    && |s| == |s0| && done <= |s| && StableImage(orig, s, less)
    && (forall x | done <= x < |s| :: s[x] == s0[x])
    && (done < |s| ==> StartsRun(s0, done, less) && Runs(s0, done, less) == 2 * out)
    && (done == |s| ==> HalfRounded(Runs(s0, done, less)) == out)
    && Runs(s, done, less) <= out
  }

  ghost function HalfRounded(k: nat): (h: nat) {
    (k + 1) / 2
  }

  lemma TwoSorted<E>(orig: seq<E>, s: seq<E>, lo: nat, mid: nat, hi: nat, less: (E, E) -> bool)
    requires StrictWeak(less, Elements(orig)) && StableImage(orig, s, less)
    requires IsRun(s, lo, mid, less) && IsRun(s, mid, hi, less)
    ensures MergeState(orig, s, s, lo, lo, mid, hi, less)
  {
    RunIsSorted(s, lo, mid, less);
    RunIsSorted(s, mid, hi, less);
  }

  lemma PassLast<E>(orig: seq<E>, s0: seq<E>, s: seq<E>, lo: nat, out: nat, less: (E, E) -> bool)
    requires InPass(orig, s0, s, lo, out, less) && IsRun(s, lo, |s|, less)
    requires StrictWeak(less, Elements(orig))
    ensures InPass(orig, s0, s, |s|, out + 1, less)
  {
    RunsAfterRun(s0, lo, |s0|, less);
    RunIsSorted(s, lo, |s|, less);
    RunsSortedStretch(s, lo, |s|, less);
  }

  lemma PassPair<E>(orig: seq<E>, s0: seq<E>, s: seq<E>, t: seq<E>, lo: nat, mid: nat, hi: nat, out: nat,
                    less: (E, E) -> bool)
    requires InPass(orig, s0, s, lo, out, less) && IsRun(s, lo, mid, less) && IsRun(s, mid, hi, less)
    requires MergeState(orig, s, t, lo, hi, hi, hi, less)
    ensures InPass(orig, s0, t, hi, out + 1, less)
  {
    assert less(s0[mid], s0[mid - 1]);
    assert hi < |s| ==> less(s0[hi], s0[hi - 1]);
    RunsAfterRun(s0, lo, mid, less);
    RunsAfterRun(s0, mid, hi, less);
    RunsSamePrefix(s, t, lo, less);
    RunsSortedStretch(t, lo, hi, less);
  }

  /** One pass of list_sort: adjacent runs are merged in pairs, front to back. */
  method MergePass(head: Elem, tail: Elem, less: (Elem, Elem) -> bool, ghost s: seq<Elem>, ghost orig: seq<Elem>)
    returns (runs: nat, ghost t: seq<Elem>)
    requires Linked(s) && s[0] == head && s[|s| - 1] == tail
    requires StrictWeak(less, Elements(orig)) && StableImage(orig, Inner(s), less)
    modifies Elements(s)
    ensures Linked(t) && SameEnds(s, t)
    ensures InPass(orig, Inner(s), Inner(t), |Inner(t)|, runs, less)
  {
    runs := 0;
    t := s;
    var a0: Elem := head.next;
    ghost var lo := 0;
    while a0 != tail
      invariant Linked(t) && SameEnds(s, t)
      invariant lo < |t| - 1 && t[lo + 1] == a0
      invariant InPass(orig, Inner(s), Inner(t), lo, runs, less)
      decreases |t| - lo
    {
      ghost var u := t;
      SeparateIsNoDup(u);
      runs := runs + 1;
      var a1b0, mid := FindEndOfRun(a0, tail, less, u, lo);
      if a1b0 == tail {
        PassLast(orig, Inner(s), Inner(u), lo, runs - 1, less);
        return;
      }
      var b1, hi := FindEndOfRun(a1b0, tail, less, u, mid);
      TwoSorted(orig, Inner(u), lo, mid, hi, less);
      t := InplaceMerge(a0, a1b0, b1, less, u, lo, mid, hi, orig);
      PassPair(orig, Inner(s), Inner(u), Inner(t), lo, mid, hi, runs - 1, less);
      a0, lo := b1, hi;
    }
    SeparateIsNoDup(t);
  }

  /** After p passes over k runs at most ceil(k / 2^p) runs are left. */
  ghost predicate Halved(k: nat, p: nat, left: nat) {
    left * Pow2(p) < k + Pow2(p)
  }

  lemma HalvedAgain(k: nat, p: nat, left: nat, left': nat)
    requires Halved(k, p, left) && left' <= HalfRounded(left)
    ensures Halved(k, p + 1, left')
    ensures left >= 3 ==> Pow2(p + 1) < k
  {
    var x := Pow2(p);
    MulLe(2 * left', left + 1, x);
    assert left' * (2 * x) == (2 * left') * x && (left + 1) * x == left * x + x;
    if left >= 3 { MulLe(3, left, x); }
  }

  class List {
    const head: Elem
    const tail: Elem
    ghost var nodes: seq<Elem>

    ghost predicate Valid()
      reads this, nodes
    {
      Linked(nodes) && nodes[0] == head && nodes[|nodes| - 1] == tail
    }

    /** The interior elements, in list order. */
    ghost function Contents(): (r: seq<Elem>)
      reads this
      requires |nodes| >= 2
    {
      Inner(nodes)
    }

    constructor ()
      ensures Valid() && Contents() == [] && fresh(Elements(nodes))
    {
      head := new Elem();
      tail := new Elem();
      new;
      head.next := tail;
      tail.prev := head;
      nodes := [head, tail];
      SeparateIsNoDup(nodes);
    }

    method PushFront(elem: Elem)
      requires Valid() && elem !in nodes
      modifies this, Elements(nodes), elem
      ensures Valid() && Contents() == [elem] + old(Contents()) && Elements(nodes) == old(Elements(nodes)) + {elem}
    {
      InsertElements(nodes, elem, 1);
      nodes := InsertChain(head.next, elem, nodes, 1);
    }

    method PushBack(elem: Elem)
      requires Valid() && elem !in nodes
      modifies this, Elements(nodes), elem
      ensures Valid() && Contents() == old(Contents()) + [elem] && Elements(nodes) == old(Elements(nodes)) + {elem}
    {
      InsertElements(nodes, elem, |nodes| - 1);
      nodes := InsertChain(tail, elem, nodes, |nodes| - 1);
    }

    method PopFront() returns (front: Elem)
      requires Valid() && Contents() != []
      modifies this, Elements(nodes)
      ensures Valid() && old(Contents()) == [front] + Contents()
    {
      front := head.next;
      ghost var was := nodes;
      var next;
      next, nodes := RemoveChain(front, nodes, 1);
      assert was == [head, front] + nodes[1..];
    }

    /** list_insert_ordered: before the first element that is strictly greater. */
    method InsertInOrder(elem: Elem, less: (Elem, Elem) -> bool)
      requires Valid() && elem !in nodes
      modifies this, Elements(nodes), elem
      ensures Valid() && Contents() == InsertOrdered(old(Contents()), elem, less)
    {
      SeparateIsNoDup(nodes);
      var e: Elem := head.next;
      ghost var k := 0;
      while e != tail && !less(elem, e)
        invariant k < |nodes| - 1 && nodes[k + 1] == e
        invariant InsertPoint(Contents(), elem, 0, less) == InsertPoint(Contents(), elem, k, less)
        decreases |nodes| - k
      {
        e, k := e.next, k + 1;
      }
      nodes := InsertChain(e, elem, nodes, k + 1);
    }

    /** list_sort: the same elements, in the order insertion one by one would give, after at
        most 1 + log2 of the number of runs passes. */
    method Sort(less: (Elem, Elem) -> bool) returns (ghost passes: nat)
      requires Valid() && StrictWeak(less, Elements(Contents()))
      modifies this, Elements(nodes)
      ensures Valid() && Elements(nodes) == old(Elements(nodes))
      ensures Contents() == InsertionSort(old(Contents()), less)
      ensures passes >= 1 && (passes == 1 || Pow2(passes - 1) < old(Runs(Contents(), |Contents()|, less)))
    {
      ghost var orig := Contents();
      ghost var k := Runs(orig, |orig|, less);
      InnerStable(nodes, less);
      var outputRuns := 2;
      passes := 0;
      while outputRuns > 1
        invariant Valid() && Elements(nodes) == old(Elements(nodes))
        invariant Sorting(orig, Contents(), passes, outputRuns, less)
        decreases passes == 0, outputRuns
      {
        ghost var s := Contents();
        outputRuns, nodes := MergePass(head, tail, less, nodes, orig);
        SortingStep(orig, s, Contents(), passes, outputRuns, less);
        passes := passes + 1;
      }
      SortingDone(orig, Contents(), passes, outputRuns, less);
    }
  }

  /** The state between the passes of list_sort. */
  ghost predicate Sorting<E>(orig: seq<E>, s: seq<E>, passes: nat, out: nat, less: (E, E) -> bool) {
    && StableImage(orig, s, less)
    && Halved(Runs(orig, |orig|, less), passes, Runs(s, |s|, less))
    && (passes == 0 ==> out > 1 && s == orig)
    && (passes > 0 ==> Runs(s, |s|, less) <= out)
    && (passes > 0 && out > 1 ==> Pow2(passes) < Runs(orig, |orig|, less))
    && (passes > 1 ==> Pow2(passes - 1) < Runs(orig, |orig|, less))
  }

  lemma SortingStep<E>(orig: seq<E>, s: seq<E>, t: seq<E>, passes: nat, out: nat, less: (E, E) -> bool)
    requires exists prior: nat | prior > 1 :: Sorting(orig, s, passes, prior, less)
    requires InPass(orig, s, t, |t|, out, less)
    ensures Sorting(orig, t, passes + 1, out, less)
  {
    HalvedAgain(Runs(orig, |orig|, less), passes, Runs(s, |s|, less), Runs(t, |t|, less));
  }

  lemma SortingDone<E>(orig: seq<E>, s: seq<E>, passes: nat, out: nat, less: (E, E) -> bool)
    requires Sorting(orig, s, passes, out, less) && out <= 1 && StrictWeak(less, Elements(orig))
    ensures s == InsertionSort(orig, less)
  {
    OneRunOrdered(s, |s|, less);
    RunIsSorted(s, 0, |s|, less);
    SortedStableIsInsertionSort(orig, s, less);
  }

  /** A chain is a stable image of itself. */
  lemma InnerStable(s: seq<Elem>, less: (Elem, Elem) -> bool)
    requires |s| >= 2 && Separate(s)
    ensures StableImage(Inner(s), Inner(s), less)
  {
    var t := Inner(s);
    SeparateIsNoDup(s);
    SeparateIsNoDup(t);
    forall i, j | 0 <= i < j < |t|
      ensures InOrder(t, t[i], t[j], less)
    {
      assert t[Pos(t, t[i])] == t[i] && t[Pos(t, t[j])] == t[j];
    }
  }
}

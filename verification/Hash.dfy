/** The chained hash table (src/lib/kernel/hash.c) as a finite map over equivalence classes of
    elements. Whether malloc succeeds in rehash is a parameter. */
module HashTables {
  import opened Common

  // ----- Bits -----

  /** Bitwise and. */
  function And(x: nat, y: nat): (r: nat)
    ensures r <= x && r <= y
  {
    if x == 0 || y == 0 then 0 else 2 * And(x / 2, y / 2) + (x % 2) * (y % 2)
  }

  ghost predicate IsPow2(n: nat) {
    exists k :: n == Pow2(k)
  }

  lemma AndStep(x: nat, p: nat)
    requires p >= 1
    ensures And(x, 2 * p - 1) == 2 * And(x / 2, p - 1) + x % 2
  {
    assert (2 * p - 1) / 2 == p - 1 && (2 * p - 1) % 2 == 1;
  }

  lemma MaskNone(x: nat)
    ensures And(x, Pow2(0) - 1) == x % Pow2(0)
  {
  }

  lemma MaskStep(x: nat, p: nat, q: nat)
    requires p >= 1 && q == 2 * p && And(x / 2, p - 1) == x / 2 % p
    ensures And(x, q - 1) == x % q
  {
    hide And;
    AndStep(x, p);
    HalfMod(x, p);
  }

  /** Masking with 2^k - 1 is the remainder modulo 2^k. */
  lemma {:induction false} AndMask(x: nat, k: nat)
    ensures And(x, Pow2(k) - 1) == x % Pow2(k)
  {
    hide And;
    if k == 0 {
      MaskNone(x);
    } else {
      AndMask(x / 2, k - 1);
      MaskStep(x, Pow2(k - 1), Pow2(k));
    }
  }

  lemma HalfMod(x: nat, p: nat)
    requires p > 0
    ensures x % (2 * p) == 2 * (x / 2 % p) + x % 2
  {
    var q, r := x / 2 / p, x / 2 % p;
    assert x / 2 == q * p + r;
    assert x == q * (2 * p) + (2 * r + x % 2);
    DivUnique(x, 2 * p, q, 2 * r + x % 2);
  }

  lemma DivUnique(x: nat, d: nat, q: int, r: nat)
    requires d > 0 && x == q * d + r && r < d
    ensures x % d == r
  {
    var q', r' := x / d, x % d;
    assert (q - q') * d == r' - r && (q' - q) * d == r - r';
    if q > q' { MulLe(1, q - q', d); } else if q < q' { MulLe(1, q' - q, d); }
  }

  lemma AndOdd(m: nat)
    ensures And(2 * m + 1, 2 * m) == 2 * And(m, m)
  {
    assert (2 * m + 1) / 2 == m && 2 * m / 2 == m && 2 * m % 2 == 0;
  }

  lemma AndEven(m: nat)
    requires m > 0
    ensures And(2 * m, 2 * m - 1) == 2 * And(m, m - 1)
  {
    assert 2 * m / 2 == m && (2 * m - 1) / 2 == m - 1 && 2 * m % 2 == 0;
  }

  /** Turning off the lowest one bit leaves the highest. */
  lemma {:induction false} TurnOff(n: nat, k: nat)
    requires Pow2(k) <= n < 2 * Pow2(k)
    ensures And(n, n - 1) < n
    ensures n == Pow2(k) ==> And(n, n - 1) == 0
    ensures n > Pow2(k) ==> Pow2(k) <= And(n, n - 1)
  {
    if k == 0 {
      assert n == 1 && And(1, 0) == 0;
    } else {
      var m := n / 2;
      assert Pow2(k) == 2 * Pow2(k - 1);
      if n % 2 == 1 {
        AndOdd(m);
        AndSelf(m);
      } else {
        AndEven(m);
        TurnOff(m, k - 1);
      }
    }
  }

  lemma {:induction false} AndSelf(n: nat)
    ensures And(n, n) == n
  {
    if n > 0 { AndSelf(n / 2); }
  }

  /** is_power_of_2 */
  predicate PowerOfTwo(x: nat) {
    x != 0 && And(x, x - 1) == 0
  }

  lemma {:induction false} Magnitude(n: nat) returns (k: nat)
    requires n > 0
    ensures Pow2(k) <= n < 2 * Pow2(k)
  {
    if n == 1 {
      k := 0;
    } else {
      k := Magnitude(n / 2);
      k := k + 1;
    }
  }

  /** The bucket count for n elements: the largest power of two up to n / 2, but at least 4. */
  method BestBuckets(elemCnt: nat) returns (n: nat, ghost k: nat)
    ensures n == Pow2(k) && n >= 4 && n <= (if elemCnt / 2 < 4 then 4 else elemCnt / 2) < 2 * n
  {
    n := elemCnt / 2;
    if n < 4 {
      n := 4;
    }
    ghost var start := n;
    k := Magnitude(n);
    assert Pow2(1) == 2 && Pow2(2) == 4;
    assert k >= 2;
    TurnOff(n, k);
    while !PowerOfTwo(n)
      invariant Pow2(k) <= n <= start < 2 * Pow2(k)
      decreases n
    {
      TurnOff(n, k);
      n := And(n, n - 1);
    }
    TurnOff(n, k);
  }

  // ----- Tables -----

  /** Elements are equal when neither is less. */
  predicate Equal<E>(less: (E, E) -> bool, a: E, b: E) {
    !less(a, b) && !less(b, a)
  }

  /** What hash and less must satisfy: equality is an equivalence, and equal elements hash alike. */
  ghost predicate Compatible<E(!new)>(hash: E -> nat, less: (E, E) -> bool) {
    && (forall a :: Equal(less, a, a))
    && (forall a, b, c :: Equal(less, a, b) && Equal(less, b, c) ==> Equal(less, a, c))
    && (forall a, b :: Equal(less, a, b) ==> hash(a) == hash(b))
  }

  /** find_bucket */
  function BucketOf<E>(hash: E -> nat, n: nat, e: E): (i: nat)
    requires n > 0
    ensures i < n
  {
    And(hash(e), n - 1)
  }

  lemma BucketIsRemainder<E>(hash: E -> nat, n: nat, e: E)
    requires IsPow2(n)
    ensures n > 0 && BucketOf(hash, n, e) == hash(e) % n
  {
    var k :| n == Pow2(k);
    AndMask(hash(e), k);
  }

  /** Bucket i holds exactly the elements of `elems` that belong there, each once. */
  ghost predicate BucketOk<E(!new)>(hash: E -> nat, n: nat, i: nat, bucket: seq<E>, elems: set<E>)
    requires n > 0
  {
    NoDup(bucket) && forall e :: e in bucket <==> e in elems && BucketOf(hash, n, e) == i
  }

  ghost predicate Holds<E(!new)>(hash: E -> nat, buckets: seq<seq<E>>, elems: set<E>) {
    |buckets| > 0 && forall i | 0 <= i < |buckets| :: BucketOk(hash, |buckets|, i, buckets[i], elems)
  }

  /** No two elements are equal: `elems` is a map from equivalence classes. */
  ghost predicate Classes<E(!new)>(less: (E, E) -> bool, elems: set<E>) {
    forall a, b | a in elems && b in elems && Equal(less, a, b) :: a == b
  }

  /** The element of the table equal to e. */
  ghost predicate Found<E(!new)>(less: (E, E) -> bool, elems: set<E>, e: E, r: Option<E>) {
    match r
    case Some(x) => x in elems && Equal(less, x, e)
    case None => forall x | x in elems :: !Equal(less, x, e)
  }

  lemma PushFront<E(!new)>(hash: E -> nat, buckets: seq<seq<E>>, elems: set<E>, e: E)
    requires Holds(hash, buckets, elems) && e !in elems
    ensures var i := BucketOf(hash, |buckets|, e);
            Holds(hash, buckets[i := [e] + buckets[i]], elems + {e})
  {
    var n := |buckets|;
    var i := BucketOf(hash, n, e);
    var after := buckets[i := [e] + buckets[i]];
    forall j | 0 <= j < n
      ensures BucketOk(hash, n, j, after[j], elems + {e})
    {
      assert BucketOk(hash, n, j, buckets[j], elems);
    }
  }

  lemma TakeOut<E(!new)>(hash: E -> nat, buckets: seq<seq<E>>, elems: set<E>, e: E)
    requires Holds(hash, buckets, elems) && e in elems
    ensures var i := BucketOf(hash, |buckets|, e);
            Holds(hash, buckets[i := Removed(buckets[i], e)], elems - {e})
  {
    var n := |buckets|;
    var i := BucketOf(hash, n, e);
    assert BucketOk(hash, n, i, buckets[i], elems);
    RemovedIs(buckets[i], e);
    var after := buckets[i := Removed(buckets[i], e)];
    forall j | 0 <= j < n
      ensures BucketOk(hash, n, j, after[j], elems - {e})
    {
      assert BucketOk(hash, n, j, buckets[j], elems);
    }
  }

  /** Every element of bucket i below position p, and of all earlier buckets. */
  ghost function Moved<E(!new)>(hash: E -> nat, buckets: seq<seq<E>>, elems: set<E>, i: nat, p: nat): (r: set<E>)
    requires |buckets| > 0 && i <= |buckets| && (i < |buckets| ==> p <= |buckets[i]|) && (i == |buckets| ==> p == 0)
  {
    set e | e in elems && (BucketOf(hash, |buckets|, e) < i || (i < |buckets| && e in buckets[i][..p]))
  }

  lemma MoveNext<E(!new)>(hash: E -> nat, buckets: seq<seq<E>>, elems: set<E>, i: nat, p: nat)
    requires Holds(hash, buckets, elems) && i < |buckets| && p < |buckets[i]|
    ensures buckets[i][p] in elems && buckets[i][p] !in Moved(hash, buckets, elems, i, p)
    ensures Moved(hash, buckets, elems, i, p + 1) == Moved(hash, buckets, elems, i, p) + {buckets[i][p]}
  {
    assert BucketOk(hash, |buckets|, i, buckets[i], elems);
    assert buckets[i][..p + 1] == buckets[i][..p] + [buckets[i][p]];
    assert buckets[i][p] in buckets[i];
  }

  lemma MoveBucket<E(!new)>(hash: E -> nat, buckets: seq<seq<E>>, elems: set<E>, i: nat)
    requires Holds(hash, buckets, elems) && i < |buckets|
    ensures Moved(hash, buckets, elems, i, |buckets[i]|) == Moved(hash, buckets, elems, i + 1, 0)
  {
    assert BucketOk(hash, |buckets|, i, buckets[i], elems);
    assert buckets[i][..|buckets[i]|] == buckets[i];
  }

  class HashTable<E(==, !new)> {
    const hash: E -> nat
    const less: (E, E) -> bool
    var buckets: seq<seq<E>>
    var elemCnt: nat
    ghost var elems: set<E>

    ghost predicate Valid()
      reads this
    {
      && Compatible(hash, less) && Holds(hash, buckets, elems) && Classes(less, elems)
      && elemCnt == |elems| && |buckets| >= 4 && IsPow2(|buckets|)
    }

    /** hash_init */
    constructor (hash: E -> nat, less: (E, E) -> bool)
      requires Compatible(hash, less)
      ensures Valid() && elems == {} && this.hash == hash && this.less == less
    {
      this.hash := hash;
      this.less := less;
      buckets := [[], [], [], []];
      elemCnt := 0;
      elems := {};
      new;
      assert 4 == Pow2(2) by { assert Pow2(1) == 2; }
    }

    /** find_elem */
    method FindElem(bucket: seq<E>, e: E) returns (r: Option<E>)
      ensures match r case Some(x) => x in bucket && Equal(less, x, e)
                      case None => forall x | x in bucket :: !Equal(less, x, e)
    {
      for i := 0 to |bucket|
        invariant forall j | 0 <= j < i :: !Equal(less, bucket[j], e)
      {
        if Equal(less, bucket[i], e) {
          return Some(bucket[i]);
        }
      }
      return None;
    }

    /** hash_find */
    method Find(e: E) returns (r: Option<E>)
      requires Valid()
      ensures Found(less, elems, e, r)
    {
      var i := BucketOf(hash, |buckets|, e);
      r := FindElem(buckets[i], e);
      assert BucketOk(hash, |buckets|, i, buckets[i], elems);
      forall x | x in elems && Equal(less, x, e)
        ensures x in buckets[i]
      {
        assert hash(x) == hash(e);
      }
    }

    /** There are as many buckets as there should be: the largest power of two up to half the number of
        elements, and at least 4. */
    ghost predicate Balanced()
      reads this
    {
      |buckets| <= (if |elems| / 2 < 4 then 4 else |elems| / 2) < 2 * |buckets|
    }

    /** rehash; `memory` says whether the allocation of new buckets succeeds. */
    method Rehash(memory: bool)
      requires Valid()
      modifies `buckets
      ensures Valid()
      ensures memory ==> Balanced()
      ensures !memory ==> buckets == old(buckets)
    {
      var n;
      ghost var k;
      n, k := BestBuckets(elemCnt);
      assert IsPow2(n);
      if n == |buckets| || !memory {
        return;
      }
      var from := buckets;
      var to: seq<seq<E>> := seq(n, _ => []);
      for i := 0 to |from|
        invariant |to| == n && Holds(hash, to, Moved(hash, from, elems, i, 0))
      {
        for p := 0 to |from[i]|
          invariant |to| == n && Holds(hash, to, Moved(hash, from, elems, i, p))
        {
          var e := from[i][p];
          MoveNext(hash, from, elems, i, p);
          PushFront(hash, to, Moved(hash, from, elems, i, p), e);
          var j := BucketOf(hash, n, e);
          to := to[j := [e] + to[j]];
        }
        MoveBucket(hash, from, elems, i);
      }
      assert Moved(hash, from, elems, |from|, 0) == elems;
      buckets := to;
    }

    /** hash_insert */
    method Insert(e: E, memory: bool) returns (r: Option<E>)
      requires Valid()
      modifies this
      ensures Valid() && Found(less, old(elems), e, r)
      ensures elems == if r.None? then old(elems) + {e} else old(elems)
      ensures memory ==> Balanced()
      ensures !memory ==> |buckets| == old(|buckets|)
    {
      r := Find(e);
      if r.None? {
        Absent(less, elems, e);
        var i := BucketOf(hash, |buckets|, e);
        PushFront(hash, buckets, elems, e);
        elemCnt := elemCnt + 1;
        buckets := buckets[i := [e] + buckets[i]];
        elems := elems + {e};
      }
      Rehash(memory);
    }

    /** hash_replace */
    method Replace(e: E, memory: bool) returns (r: Option<E>)
      requires Valid()
      modifies this
      ensures Valid() && Found(less, old(elems), e, r)
      ensures elems == (if r.Some? then old(elems) - {r.value} else old(elems)) + {e}
      ensures memory ==> Balanced()
      ensures !memory ==> |buckets| == old(|buckets|)
    {
      r := Find(e);
      if r.Some? {
        Replaced(hash, less, elems, e, r.value);
        var i := BucketOf(hash, |buckets|, r.value);
        TakeOut(hash, buckets, elems, r.value);
        elemCnt := elemCnt - 1;
        buckets := buckets[i := Removed(buckets[i], r.value)];
        elems := elems - {r.value};
      } else {
        Absent(less, elems, e);
      }
      var i := BucketOf(hash, |buckets|, e);
      PushFront(hash, buckets, elems, e);
      elemCnt := elemCnt + 1;
      buckets := buckets[i := [e] + buckets[i]];
      elems := elems + {e};
      Rehash(memory);
    }

    /** hash_delete */
    method Delete(e: E, memory: bool) returns (r: Option<E>)
      requires Valid()
      modifies this
      ensures Valid() && Found(less, old(elems), e, r)
      ensures elems == if r.Some? then old(elems) - {r.value} else old(elems)
      ensures memory && r.Some? ==> Balanced()
      ensures !memory ==> |buckets| == old(|buckets|)
      ensures r.None? ==> buckets == old(buckets)
    {
      r := Find(e);
      if r.Some? {
        var i := BucketOf(hash, |buckets|, r.value);
        TakeOut(hash, buckets, elems, r.value);
        elemCnt := elemCnt - 1;
        buckets := buckets[i := Removed(buckets[i], r.value)];
        elems := elems - {r.value};
        Rehash(memory);
      }
    }
  }

  // ----- Iteration -----

  /** hash_iterator: the bucket, and the position in it or -1 before its first element. */
  datatype Iterator = Iterator(bucket: nat, pos: int)

  ghost predicate Inside<E>(buckets: seq<seq<E>>, it: Iterator) {
    it.bucket < |buckets| && -1 <= it.pos < |buckets[it.bucket]|
  }

  /** The elements seen by an iterator. */
  ghost function Seen<E(!new)>(hash: E -> nat, buckets: seq<seq<E>>, elems: set<E>, it: Iterator): set<E>
    requires Inside(buckets, it)
  {
    Moved(hash, buckets, elems, it.bucket, it.pos + 1)
  }

  /** hash_next: an element not seen before, until all are seen. */
  method Next<E(!new)>(buckets: seq<seq<E>>, it: Iterator, ghost hash: E -> nat, ghost elems: set<E>)
    returns (after: Iterator, r: Option<E>)
    requires Holds(hash, buckets, elems) && Inside(buckets, it)
    ensures r.None? ==> Seen(hash, buckets, elems, it) == elems
    ensures r.Some? ==> Inside(buckets, after) && r.value in elems && r.value !in Seen(hash, buckets, elems, it)
                        && Seen(hash, buckets, elems, after) == Seen(hash, buckets, elems, it) + {r.value}
  {
    var i, p: nat := it.bucket, it.pos + 1;
    while p == |buckets[i]|
      invariant i < |buckets| && p <= |buckets[i]|
      invariant Moved(hash, buckets, elems, i, p) == Seen(hash, buckets, elems, it)
      decreases |buckets| - i
    {
      MoveBucket(hash, buckets, elems, i);
      i := i + 1;
      if i >= |buckets| {
        assert Moved(hash, buckets, elems, i, 0) == elems by { AllMoved(hash, buckets, elems); }
        return it, None;
      }
      p := 0;
    }
    MoveNext(hash, buckets, elems, i, p);
    return Iterator(i, p), Some(buckets[i][p]);
  }

  lemma AllMoved<E(!new)>(hash: E -> nat, buckets: seq<seq<E>>, elems: set<E>)
    requires |buckets| > 0
    ensures Moved(hash, buckets, elems, |buckets|, 0) == elems
  {
  }

  lemma SeenNone<E(!new)>(buckets: seq<seq<E>>, hash: E -> nat, elems: set<E>)
    requires Holds(hash, buckets, elems)
    ensures Inside(buckets, Iterator(0, -1)) && Seen(hash, buckets, elems, Iterator(0, -1)) == {}
  {
  }

  /** The iteration idiom visits every element exactly once. */
  method VisitAll<E(!new)>(buckets: seq<seq<E>>, ghost hash: E -> nat, ghost elems: set<E>) returns (visited: seq<E>)
    requires Holds(hash, buckets, elems)
    ensures NoDup(visited) && forall e :: e in visited <==> e in elems
  {
    hide Seen, Holds;
    visited := [];
    var it := Iterator(0, -1);
    SeenNone(buckets, hash, elems);
    while true
      invariant Inside(buckets, it) && NoDup(visited)
      invariant forall e :: e in visited <==> e in Seen(hash, buckets, elems, it)
      decreases |elems - Seen(hash, buckets, elems, it)|
    {
      ghost var seen := Seen(hash, buckets, elems, it);
      var r;
      it, r := Next(buckets, it, hash, elems);
      if r.None? {
        break;
      }
      assert elems - seen == elems - (seen + {r.value}) + {r.value};
      visited := visited + [r.value];
    }
  }

  lemma Absent<E(!new)>(less: (E, E) -> bool, elems: set<E>, e: E)
    requires Classes(less, elems) && Equal(less, e, e) && Found(less, elems, e, None)
    ensures e !in elems && Classes(less, elems + {e})
  {
  }

  lemma Replaced<E(!new)>(hash: E -> nat, less: (E, E) -> bool, elems: set<E>, e: E, x: E)
    requires Compatible(hash, less) && Classes(less, elems) && x in elems && Equal(less, x, e)
    ensures e !in elems - {x} && Classes(less, elems - {x} + {e})
  {
    forall a | a in elems && a != x
      ensures !Equal(less, a, e)
    {
      assert Equal(less, e, x);
      assert Equal(less, a, e) ==> Equal(less, a, x);
    }
  }
}

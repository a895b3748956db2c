/** The page allocator (src/threads/palloc.c): two pools of pages, each with a bitmap, and what
    holds of the page extents handed out over every sequence of calls. Pages are numbered; the
    address of page p is 4096 p. */
module Pages {
  import opened Common
  import opened Bitmaps

  /** Extents in use: first page to number of pages. */
  type Extents = map<nat, nat>

  ghost predicate Apart(live: Extents) {
    && (forall p | p in live :: live[p] > 0)
    && (forall p, q | p in live && q in live && p != q :: p + live[p] <= q || q + live[q] <= p)
  }

  ghost predicate Covers(live: Extents, p: nat, x: nat) {
    p in live && p <= x < p + live[p]
  }

  ghost predicate Covered(live: Extents, x: nat) {
    exists p :: Covers(live, p, x)
  }

  /** Some page from p on is in use, within cnt pages. */
  ghost predicate Taken(live: Extents, p: nat, cnt: nat) {
    exists x :: p <= x < p + cnt && Covered(live, x)
  }

  /** The bitmap of the pool that starts at page base marks exactly the pages of the extents. */
  ghost predicate Marks(base: nat, bits: seq<bool>, live: Extents) {
    forall i | 0 <= i < |bits| :: bits[i] == Covered(live, base + i)
  }

  ghost predicate Within(base: nat, size: nat, p: nat, cnt: nat) {
    base <= p && p + cnt <= base + size
  }

  // ----- Taking and giving back -----

  lemma TakeApart(live: Extents, p: nat, cnt: nat)
    requires Apart(live) && cnt > 0 && forall x | p <= x < p + cnt :: !Covered(live, x)
    ensures p !in live && Apart(live[p := cnt])
  {
    assert p in live ==> Covers(live, p, p);
    forall q | q in live
      ensures p + cnt <= q || q + live[q] <= p
    {
      var x := if p < q then q else p;
      assert q < p + cnt && p < q + live[q] ==> Covers(live, q, x) && Covered(live, x);
    }
  }

  lemma TakeCovered(live: Extents, p: nat, cnt: nat, x: nat)
    requires p !in live
    ensures Covered(live[p := cnt], x) <==> Covered(live, x) || p <= x < p + cnt
  {
    var live' := live[p := cnt];
    assert forall q :: Covers(live', q, x) <==> Covers(live, q, x) || (q == p && p <= x < p + cnt);
    if p <= x < p + cnt {
      assert Covers(live', p, x);
    } else {
      assert forall q :: Covers(live', q, x) <==> Covers(live, q, x);
    }
  }

  lemma GiveCovered(live: Extents, p: nat, x: nat)
    requires Apart(live) && p in live
    ensures Covered(live - {p}, x) <==> Covered(live, x) && !(p <= x < p + live[p])
  {
    assert forall q :: Covers(live - {p}, q, x) <==> Covers(live, q, x) && q != p;
    if p <= x < p + live[p] {
      assert forall q | Covers(live, q, x) :: q == p;
    }
  }

  lemma TakeMarks(base: nat, bits: seq<bool>, live: Extents, p: nat, cnt: nat, bits': seq<bool>)
    requires Marks(base, bits, live) && p !in live && |bits'| == |bits|
    requires forall i | 0 <= i < |bits| :: bits'[i] == (bits[i] || p <= base + i < p + cnt)
    ensures Marks(base, bits', live[p := cnt])
  {
    forall i | 0 <= i < |bits|
      ensures bits'[i] == Covered(live[p := cnt], base + i)
    {
      TakeCovered(live, p, cnt, base + i);
    }
  }

  lemma GiveMarks(base: nat, bits: seq<bool>, live: Extents, p: nat, bits': seq<bool>)
    requires Marks(base, bits, live) && Apart(live) && p in live && |bits'| == |bits|
    requires forall i | 0 <= i < |bits| :: bits'[i] == (bits[i] && !(p <= base + i < p + live[p]))
    ensures Marks(base, bits', live - {p})
  {
    forall i | 0 <= i < |bits|
      ensures bits'[i] == Covered(live - {p}, base + i)
    {
      GiveCovered(live, p, base + i);
    }
  }

  class Allocator {
    const kernel: Bitmap
    const user: Bitmap
    const kernelBase: nat
    const userBase: nat
    ghost var live: Extents

    ghost predicate Valid()
      reads this, kernel, user, kernel.words, user.words
    {
      && kernel.Valid() && user.Valid() && kernel.words != user.words
      && kernelBase + kernel.bitCnt <= userBase
      && Apart(live) && Marks(kernelBase, kernel.Bits(), live) && Marks(userBase, user.Bits(), live)
      && (forall p | p in live :: Within(kernelBase, kernel.bitCnt, p, live[p]) || Within(userBase, user.bitCnt, p, live[p]))
    }

    /** The pages a pool of pageCnt pages loses to its own bitmap. */
    static function BitmapPages(pageCnt: nat): (n: nat)
      ensures n > 0 && 4096 * (n - 1) < 8 + 4 * ((pageCnt + 31) / 32) <= 4096 * n
    {
      (8 + 4 * ((pageCnt + 31) / 32) + 4095) / 4096
    }

    /** palloc_init on freePages pages from page start on. A pool too small for its bitmap is a panic. */
    constructor (start: nat, freePages: nat, userLimit: nat)
      requires var userPages := if freePages / 2 > userLimit then userLimit else freePages / 2;
               BitmapPages(userPages) <= userPages && BitmapPages(freePages - userPages) <= freePages - userPages
      ensures Valid() && live == map[] && fresh(kernel) && fresh(user) && fresh(kernel.words) && fresh(user.words)
      ensures var userPages := if freePages / 2 > userLimit then userLimit else freePages / 2;
              var kernelPages := freePages - userPages;
              && kernelBase == start + BitmapPages(kernelPages) && kernelBase + kernel.bitCnt == start + kernelPages
              && userBase == start + kernelPages + BitmapPages(userPages) && userBase + user.bitCnt == start + freePages
    {
      var userPages := if freePages / 2 > userLimit then userLimit else freePages / 2;
      hide Marks, Apart, BitmapPages;
      var kernelPages := freePages - userPages;
      kernel := new Bitmap(kernelPages - BitmapPages(kernelPages));
      user := new Bitmap(userPages - BitmapPages(userPages));
      kernelBase := start + BitmapPages(kernelPages);
      userBase := start + kernelPages + BitmapPages(userPages);
      live := map[];
      new;
      NoneMarked(kernelBase, kernel.Bits());
      NoneMarked(userBase, user.Bits());
    }

    /** palloc_get_multiple: the first run of free pages in the pool asked for. */
    method GetMultiple(fromUser: bool, cnt: nat) returns (r: Option<nat>)
      requires Valid()
      modifies this, kernel.words, user.words
      ensures Valid()
      ensures r.None? ==> live == old(live)
      ensures r.None? && cnt > 0 ==>
                forall p: nat |
                  (if fromUser then Within(userBase, user.bitCnt, p, cnt) else Within(kernelBase, kernel.bitCnt, p, cnt)) ::
                  Taken(live, p, cnt)
      ensures r.Some? ==> cnt > 0 && r.value !in old(live) && live == old(live)[r.value := cnt]
      ensures r.Some? ==> if fromUser then Within(userBase, user.bitCnt, r.value, cnt)
                          else Within(kernelBase, kernel.bitCnt, r.value, cnt)
      ensures r.Some? ==> forall p: nat | (if fromUser then userBase else kernelBase) <= p < r.value :: Taken(old(live), p, cnt)
    {
      if cnt == 0 {
        return None;
      }
      hide Marks, Covered, Apart, AllAre;
      var pool := if fromUser then user else kernel;
      var base := if fromUser then userBase else kernelBase;
      ghost var kernelBits, userBits := kernel.Bits(), user.Bits();
      var idx := pool.ScanAndFlip(0, cnt, false);
      if idx == -1 {
        forall p: nat | Within(base, pool.bitCnt, p, cnt)
          ensures Taken(live, p, cnt)
        {
          NoRun(base, pool.Bits(), live, p, cnt);
        }
        return None;
      }
      var p := base + idx;
      forall q: nat | base <= q < p
        ensures Taken(live, q, cnt)
      {
        FirstRun(base, if fromUser then userBits else kernelBits, live, q, idx, cnt);
      }
      FreeRun(base, if fromUser then userBits else kernelBits, live, idx, cnt);
      TakeApart(live, p, cnt);
      TakeMarks(kernelBase, kernelBits, live, p, cnt, kernel.Bits());
      TakeMarks(userBase, userBits, live, p, cnt, user.Bits());
      live := live[p := cnt];
      return Some(p);
    }

    /** page_from_pool */
    predicate FromPool(base: nat, size: nat, p: nat) {
      base <= p < base + size
    }

    /** palloc_free_multiple: the extent goes back to the pool it came from. */
    method FreeMultiple(p: nat, cnt: nat)
      requires Valid() && p in live && live[p] == cnt
      modifies this, kernel.words, user.words
      ensures Valid() && live == old(live) - {p}
      ensures Within(kernelBase, kernel.bitCnt, p, cnt) ==> user.Bits() == old(user.Bits())
      ensures Within(userBase, user.bitCnt, p, cnt) ==> kernel.Bits() == old(kernel.Bits())
    {
      ghost var kernelBits, userBits := kernel.Bits(), user.Bits();
      if FromPool(kernelBase, kernel.bitCnt, p) {
        kernel.SetMultiple(p - kernelBase, cnt, false);
      } else {
        assert FromPool(userBase, user.bitCnt, p);
        user.SetMultiple(p - userBase, cnt, false);
      }
      GiveMarks(kernelBase, kernelBits, live, p, kernel.Bits());
      GiveMarks(userBase, userBits, live, p, user.Bits());
      live := live - {p};
    }
  }

  lemma NoneMarked(base: nat, bits: seq<bool>)
    requires bits == seq(|bits|, _ => false)
    ensures Marks(base, bits, map[]) && Apart(map[])
  {
  }

  lemma FreeRun(base: nat, bits: seq<bool>, live: Extents, idx: nat, cnt: nat)
    requires Marks(base, bits, live) && AllAre(bits, idx, cnt, false)
    ensures idx + cnt <= |bits| && forall x | base + idx <= x < base + idx + cnt :: !Covered(live, x)
  {
    forall x | base + idx <= x < base + idx + cnt
      ensures !Covered(live, x)
    {
      assert !bits[x - base];
    }
  }

  lemma FirstRun(base: nat, bits: seq<bool>, live: Extents, q: nat, idx: nat, cnt: nat)
    requires Marks(base, bits, live) && base <= q < base + idx && AllAre(bits, idx, cnt, false)
    requires forall i | 0 <= i < idx :: !AllAre(bits, i, cnt, false)
    ensures Taken(live, q, cnt)
  {
    assert !AllAre(bits, q - base, cnt, false);
    NoRun(base, bits, live, q, cnt);
  }

  lemma NoRun(base: nat, bits: seq<bool>, live: Extents, p: nat, cnt: nat)
    requires Marks(base, bits, live) && Within(base, |bits|, p, cnt) && !AllAre(bits, p - base, cnt, false)
    ensures Taken(live, p, cnt)
  {
    var i :| p - base <= i < p - base + cnt && bits[i];
    assert Covered(live, base + i);
  }
}

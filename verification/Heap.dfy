/** malloc, free and realloc as methods over the page allocator (src/threads/malloc.c). Bytes of
    memory are a function from addresses; the bytes of arena headers and of the links inside
    free blocks are not represented in it. */
module Heaps {
  import opened Common
  import opened Bitmaps
  import opened Pages
  import opened Malloc

  type Memory = nat -> int

  // ----- Lists -----

  /** The loop that takes the blocks of an arena off the free list. */
  method RemoveBlocks(f: seq<nat>, p: nat, d: nat) returns (r: seq<nat>)
    requires d < 7 && NoDup(f) && FreeIn(f, p) == Blocks(p, d)
    ensures Without(f, p, r)
  {
    r := f;
    assert FirstBlocks(p, d, 0) == {};
    for i := 0 to PerArena(d)
      invariant NoDup(r) && forall b :: b in r <==> b in f && b !in FirstBlocks(p, d, i)
    {
      NextBlock(p, d, i);
      assert BlockAt(p, d, i) in FreeIn(f, p);
      RemovedIs(r, BlockAt(p, d, i));
      r := Removed(r, BlockAt(p, d, i));
    }
    assert forall b :: b in f && b in Blocks(p, d) <==> b in FreeIn(f, p);
  }

  lemma NextBlock(p: nat, d: nat, i: nat)
    requires d < 7 && i < PerArena(d)
    ensures FirstBlocks(p, d, i + 1) == FirstBlocks(p, d, i) + {BlockAt(p, d, i)}
    ensures BlockAt(p, d, i) in Blocks(p, d) && BlockAt(p, d, i) !in FirstBlocks(p, d, i)
  {
    DescFacts(d);
    forall j | 0 <= j < i
      ensures BlockAt(p, d, j) != BlockAt(p, d, i)
    {
      Spaced(p, d, j, i);
    }
  }

  /** The loop that puts the blocks of a new arena on the free list. */
  method PushBlocks(f: seq<nat>, p: nat, d: nat) returns (r: seq<nat>)
    requires d < 7
    ensures r == f + BlockList(p, d, PerArena(d))
  {
    r := f;
    assert BlockList(p, d, 0) == [];
    for i := 0 to PerArena(d)
      invariant r == f + BlockList(p, d, i)
    {
      assert BlockList(p, d, i + 1) == BlockList(p, d, i) + [BlockAt(p, d, i)];
      r := r + [BlockAt(p, d, i)];
    }
  }

  // ----- Memory -----

  ghost predicate KeptAt(c: nat, n: nat, m: Memory, m': Memory) {
    forall x: nat | c <= x < c + n :: m'(x) == m(x)
  }

  /** The bytes of the blocks in `live` are the same in both memories. */
  ghost predicate Kept(live: map<nat, nat>, m: Memory, m': Memory) {
    forall c | c in live :: KeptAt(c, live[c], m, m')
  }

  const JUNK := 0xcc

  /** memset */
  function Filled(m: Memory, at: nat, n: nat, v: int): (r: Memory) {
    (x: nat) => if at <= x < at + n then v else m(x)
  }

  function ByteAt(m: Memory, at: nat, k: nat): int {
    m(at + k)
  }

  /** The n bytes at `from` in m are those at `to` in m'. */
  ghost predicate SameBytes(m: Memory, from: nat, m': Memory, to: nat, n: nat) {
    forall k: nat | k < n :: ByteAt(m', to, k) == ByteAt(m, from, k)
  }

  function Least(a: nat, b: nat): nat {
    if a < b then a else b
  }

  lemma FewerBytes(m: Memory, from: nat, m': Memory, to: nat, n: nat, k: nat)
    requires SameBytes(m, from, m', to, n) && k <= n
    ensures SameBytes(m, from, m', to, k)
  {
  }

  /** memcpy */
  function Copied(m: Memory, to: nat, from: nat, n: nat): (r: Memory) {
    (x: nat) => if to <= x < to + n then m(x - to + from) else m(x)
  }

  ghost predicate ZeroAt(m: Memory, at: nat, n: nat) {
    forall k: nat | k < n :: ByteAt(m, at, k) == 0
  }

  lemma FilledZero(m: Memory, at: nat, n: nat)
    ensures ZeroAt(Filled(m, at, n, 0), at, n)
  {
  }

  lemma FillApart(m: Memory, at: nat, n: nat, v: int, c: nat, k: nat)
    requires at + n <= c || c + k <= at
    ensures KeptAt(c, k, m, Filled(m, at, n, v))
  {
  }

  /** Filling a block in use leaves the others alone. */
  lemma FillKeeps(arenas: Arenas, lists: Lists, live: map<nat, nat>, extents: Extents, b: nat, n: nat, v: int, m: Memory)
    requires Good(arenas, lists, live, extents) && b in live
    requires b / 4096 in arenas && (arenas[b / 4096].Small? ==> arenas[b / 4096].desc < 7) && n <= Room(arenas, b)
    ensures Kept(live - {b}, m, Filled(m, b, n, v))
  {
    hide Good, KeptAt, Filled, Room;
    forall c | c in live && c != b
      ensures KeptAt(c, live[c], m, Filled(m, b, n, v))
    {
      LiveApart(arenas, lists, live, extents, b, c);
      LiveInside(arenas, lists, live, extents, c);
      FillApart(m, b, n, v, c, live[c]);
    }
  }

  lemma PagesKept(arenas: Arenas, lists: Lists, live: map<nat, nat>, extents: Extents, p: nat, n: nat, m: Memory)
    requires Good(arenas, lists, live, extents) && p !in extents && Apart(extents[p := n])
    ensures Kept(live, m, Filled(m, 4096 * p, 4096 * n, JUNK))
  {
    hide Good, KeptAt, Filled, Room;
    forall c | c in live
      ensures KeptAt(c, live[c], m, Filled(m, 4096 * p, 4096 * n, JUNK))
    {
      LiveInside(arenas, lists, live, extents, c);
      var q: nat := c / 4096;
      var e := extents[p := n];
      assert p in e && q in e && q != p;
      assert q + e[q] <= p || p + e[p] <= q;
      FillApart(m, 4096 * p, 4096 * n, JUNK, c, live[c]);
    }
  }

  /** Giving back an extent fills its pages, which are none of the blocks still in use. */
  lemma GoneKept(arenas: Arenas, lists: Lists, live: map<nat, nat>, extents: Extents, p: nat, n: nat, m: Memory)
    requires p in extents && extents[p] == n && Apart(extents) && Good(arenas, lists, live, extents - {p})
    ensures Kept(live, m, Filled(m, 4096 * p, 4096 * n, JUNK))
  {
    hide Good, Apart, Kept, Filled;
    assert extents == (extents - {p})[p := n];
    PagesKept(arenas, lists, live, extents - {p}, p, n, m);
  }

  lemma GoneForeign(arenas: Arenas, extents: Extents, a: nat)
    requires a in arenas
    ensures (extents - {a}) - (arenas - {a}).Keys == extents - arenas.Keys
  {
  }

  lemma KeptSame(live: map<nat, nat>, m: Memory)
    ensures Kept(live, m, m)
  {
  }

  lemma KeptTwice(live: map<nat, nat>, a: Memory, b: Memory, c: Memory)
    requires Kept(live, a, b) && Kept(live, b, c)
    ensures Kept(live, a, c)
  {
    forall e | e in live
      ensures KeptAt(e, live[e], a, c)
    {
      assert KeptAt(e, live[e], a, b) && KeptAt(e, live[e], b, c);
    }
  }

  // ----- The allocator -----

  /** The page count malloc computes with 32-bit arithmetic. */
  function PageCount32(size: U32): (n: nat) {
    (size + HEADER + 4095) % 0x1_0000_0000 / 4096
  }

  const LARGEST: U32 := 0xFFFF_FFF4

  /** It is enough pages, or none at all, exactly for all but the eleven greatest sizes; for those it
      is one page. */
  lemma PagesSuffice(size: U32)
    ensures PageCount32(size) == 0 || 4096 * PageCount32(size) >= size + HEADER <==> size <= LARGEST
    ensures PageCount32(size) == 0 <==> 0xFFFF_EFF5 <= size <= LARGEST
    ensures size > LARGEST ==> PageCount32(size) == 1
  {
  }

  /** The pages a request takes when the free lists do not help; none means that it fails. */
  function PagesFor(size: U32): (n: nat)
    ensures size <= 1024 || size > LARGEST ==> n == 1
    ensures n == 0 <==> 0xFFFF_EFF5 <= size <= LARGEST
    ensures 1024 < size < 0xFFFF_EFF5 ==> 4096 * (n - 1) < size + HEADER <= 4096 * n
  {
    if size <= 1024 then 1 else PageCount32(size)
  }

  /** The bytes a caller may use of the block it gets: those it asked for, or what one page holds. */
  function Granted(size: U32): (n: nat)
    ensures n <= size && (n == size <==> size <= LARGEST) && (size > LARGEST ==> n == 4096 - HEADER)
  {
    if size <= LARGEST then size else 4096 - HEADER
  }

  /** Copying the lesser of two sizes into such a block stays inside it exactly if the request was no
      such great one or the old block is small. */
  lemma CopyFits(size: U32, oldSize: nat)
    ensures Least(size, oldSize) <= Granted(size) <==> size <= LARGEST || oldSize <= 4096 - HEADER
  {
  }

  /** The size calloc computes with 32-bit arithmetic, and its test. */
  function Product32(a: U32, b: U32): (n: U32) {
    a * b % 0x1_0000_0000
  }

  predicate TooLong(a: U32, b: U32) {
    Product32(a, b) < a || Product32(a, b) < b
  }

  /** calloc fails or asks for enough exactly if the product does not wrap around or the test sees
      that it did. */
  lemma ProductSuffices(a: U32, b: U32)
    ensures TooLong(a, b) || Product32(a, b) >= a * b <==> a * b < 0x1_0000_0000 || TooLong(a, b)
  {
    hide TooLong;
    assert a * b >= 0 by { MulLe(0, a, b); }
    WrapSees(a * b);
  }

  lemma WrapSees(n: nat)
    ensures n % 0x1_0000_0000 >= n <==> n < 0x1_0000_0000
  {
  }

  lemma ProductIs(a: U32, b: U32)
    ensures a * b >= 0 && Product32(a, b) == a * b % 0x1_0000_0000
    ensures a * b < 0x1_0000_0000 ==> Product32(a, b) == a * b && (Product32(a, b) < a || Product32(a, b) < b ==> a == 0 || b == 0)
    ensures Product32(a, b) == 0 && a * b < 0x1_0000_0000 ==> a == 0 || b == 0
    ensures Product32(a, b) == 0 && a * b >= 0x1_0000_0000 ==> Product32(a, b) < a
  {
    MulLe(0, a, b);
    if a > 0 && b > 0 {
      MulLe(1, a, b);
      MulLe(1, b, a);
    }
  }

  /** It raises no false alarm: where nothing wraps around it fires exactly if one factor is zero and the
      other is not. */
  lemma TestExactly(a: U32, b: U32)
    requires a * b < 0x1_0000_0000
    ensures Product32(a, b) == a * b && (TooLong(a, b) <==> (a == 0) != (b == 0))
  {
    ProductIs(a, b);
  }

  /** The test sees it whenever neither number is above 65536. */
  lemma SmallFactors(a: U32, b: U32)
    requires a <= 0x1_0000 && b <= 0x1_0000
    ensures a * b < 0x1_0000_0000 || TooLong(a, b)
  {
    MulLe(a, 0x1_0000, b);
    if a < 0x1_0000 {
      MulLe(b, 0x1_0000, a);
      assert a * b == b * a;
    }
  }

  /** For example, 65537 times 65537 bytes are taken for 131073. */
  lemma ProductWrapsAround()
    ensures Product32(0x1_0001, 0x1_0001) == 0x2_0001 && !TooLong(0x1_0001, 0x1_0001)
  {
  }

  class Heap {
    const pages: Allocator
    var arenas: Arenas
    var lists: Lists
    var mem: Memory
    ghost var live: map<nat, nat>                    // blocks in use, with the bytes asked for

    ghost predicate Valid()
      reads this, pages, pages.kernel, pages.user, pages.kernel.words, pages.user.words
    {
      pages.Valid() && Good(arenas, lists, live, pages.live) && Busy(arenas)
    }

    /** The extents other users of the page allocator hold. */
    ghost function Foreign(): Extents
      reads this, pages
    {
      pages.live - arenas.Keys
    }

    /** There is no run of n free pages in the kernel pool. */
    ghost predicate Exhausted(n: nat)
      reads pages
    {
      forall p: nat | Within(pages.kernelBase, pages.kernel.bitCnt, p, n) :: Taken(pages.live, p, n)
    }

    constructor (pages: Allocator, mem: Memory)
      requires pages.Valid()
      ensures Valid() && this.pages == pages && live == map[] && Foreign() == pages.live && this.mem == mem
    {
      this.pages := pages;
      this.mem := mem;
      arenas := map[];
      lists := seq(7, _ => []);
      live := map[];
    }

    /** The descriptor for a request: the first whose blocks are large enough, or 7. */
    method FindDesc(size: nat) returns (d: nat)
      ensures d <= 7 && (d < 7 ==> size <= Size(d)) && (d == 7 <==> size > 1024)
      ensures forall e | 0 <= e < d :: Size(e) < size
    {
      d := 0;
      while d < 7 && Size(d) < size
        invariant d <= 7 && forall e | 0 <= e < d :: Size(e) < size
      {
        d := d + 1;
      }
      assert Size(6) == 1024;
    }

    /** Handing out the first block of a free list. */
    method TakeBlock(d: nat, size: nat) returns (b: nat)
      requires pages.Valid() && Good(arenas, lists, live, pages.live)
      requires d < 7 && lists[d] != [] && 0 < size <= Size(d) && BusyBut(arenas, lists[d][0] / 4096)
      modifies this
      ensures Valid() && b !in old(live) && live == old(live)[b := size] && mem == old(mem)
      ensures arenas.Keys == old(arenas.Keys)
    {
      hide Good, Busy, BusyBut, Size;
      Popped(arenas, lists, live, pages.live, d, size);
      b := lists[d][0];
      lists := lists[d := lists[d][1..]];
      var a := b / 4096;
      arenas := arenas[a := Small(d, arenas[a].freeCnt - 1)];
      live := live[b := size];
    }

    /** malloc for sizes no descriptor handles: whole pages. */
    method MallocBig(size: U32) returns (r: Option<nat>)
      requires Valid() && size > 1024
      modifies this, pages, pages.kernel.words, pages.user.words
      ensures Valid() && Foreign() == old(Foreign()) && mem == old(mem)
      ensures r.None? ==> live == old(live) && (PagesFor(size) == 0 || Exhausted(PagesFor(size)))
      ensures r.Some? ==> PagesFor(size) > 0 && r.value !in old(live) && live == old(live)[r.value := Granted(size)]
      ensures forall a | a in old(arenas) :: a in arenas && arenas[a] == old(arenas)[a]
    {
      hide Good, Busy, Apart, Marks, Covered;
      var pageCnt := PageCount32(size);
      PagesSuffice(size);
      var p := pages.GetMultiple(false, pageCnt);
      if p.None? {
        return None;
      }
      NewBig(arenas, lists, live, old(pages.live), p.value, pageCnt, Granted(size));
      arenas := arenas[p.value := Big(pageCnt)];
      live := live[4096 * p.value + HEADER := Granted(size)];
      return Some(4096 * p.value + HEADER);
    }

    /** A new arena for descriptor d, if a page is free. */
    method AddArena(d: nat) returns (ok: bool)
      requires Valid() && d < 7 && lists[d] == []
      modifies this, pages, pages.kernel.words, pages.user.words
      ensures pages.Valid() && Good(arenas, lists, live, pages.live) && live == old(live) && mem == old(mem)
      ensures Foreign() == old(Foreign())
      ensures ok ==> lists[d] != [] && BusyBut(arenas, lists[d][0] / 4096)
      ensures !ok ==> Busy(arenas) && Exhausted(1)
    {
      hide Good, Apart, Marks, Covered, PerArena, BlockList;
      var p := pages.GetMultiple(false, 1);
      if p.None? {
        return false;
      }
      var f := PushBlocks(lists[d], p.value, d);
      assert f == BlockList(p.value, d, PerArena(d));
      NewArena(arenas, lists, live, old(pages.live), d, p.value, BlockList(p.value, d, PerArena(d)));
      arenas := arenas[p.value := Small(d, PerArena(d))];
      lists := lists[d := f];
      return true;
    }

    /** malloc, for every size. A block it returns has room for the request, unless that is one of the
        eleven greatest. */
    method Malloc(size: U32) returns (r: Option<nat>)
      requires Valid()
      modifies this, pages, pages.kernel.words, pages.user.words
      ensures Valid() && Foreign() == old(Foreign()) && mem == old(mem)
      ensures r.None? ==> live == old(live) && (size == 0 || PagesFor(size) == 0 || Exhausted(PagesFor(size)))
      ensures r.Some? ==> size > 0 && PagesFor(size) > 0 && r.value !in old(live) && live == old(live)[r.value := Granted(size)]
      ensures size > 1024 ==> forall a | a in old(arenas) :: a in arenas && arenas[a] == old(arenas)[a]
    {
      hide Good, Busy, BusyBut, Size, Apart, Covered;
      if size == 0 {
        return None;
      }
      var d := FindDesc(size);
      if d == 7 {
        r := MallocBig(size);
        return;
      }
      if lists[d] == [] {
        var ok := AddArena(d);
        if !ok {
          return None;
        }
      } else {
        BusyAll(arenas, lists[d][0] / 4096);
      }
      var b := TakeBlock(d, size);
      return Some(b);
    }

    /** Giving back an arena all of whose blocks are free. */
    method DropArena(a: nat, d: nat)
      requires pages.Valid() && Good(arenas, lists, live, pages.live) && BusyBut(arenas, a)
      requires d < 7 && SmallAt(arenas, a, d) && arenas[a].freeCnt == PerArena(d)
      modifies this, pages, pages.kernel.words, pages.user.words
      ensures Valid() && Foreign() == old(Foreign()) && live == old(live) && Kept(live, old(mem), mem)
    {
      hide *;
      ghost var extents := pages.live;
      ForeignIs();
      GoodParts(arenas, lists, live, extents, a, d);
      AllFree(arenas, lists, d, a);
      var f := RemoveBlocks(lists[d], a, d);
      Dropped(arenas, lists, live, extents, d, a, f);
      GoodApart(arenas, lists, live, extents);
      GoneKept(arenas - {a}, lists[d := f], live, extents, a, 1, mem);
      GoneForeign(arenas, extents, a);
      pages.FreeMultiple(a, 1);
      mem := Filled(mem, 4096 * a, 4096 * 1, JUNK);
      lists := lists[d := f];
      arenas := arenas - {a};
      Whole();
      ForeignIs();
    }

    lemma Whole()
      requires pages.Valid() && Good(arenas, lists, live, pages.live) && Busy(arenas)
      ensures Valid()
    {
    }

    lemma ForeignIs()
      ensures Foreign() == pages.live - arenas.Keys
    {
    }

    method FreeSmall(b: nat, d: nat)
      requires Valid() && b in live && d < 7 && SmallAt(arenas, b / 4096, d)
      modifies this, pages, pages.kernel.words, pages.user.words
      ensures Valid() && Foreign() == old(Foreign()) && live == old(live) - {b} && Kept(live, old(mem), mem)
    {
      hide Good, Apart, Busy, BusyBut, PerArena, Kept, Filled, Marks, Covered, Size;
      var a := b / 4096;
      RoomIs(arenas, b);
      FillKeeps(arenas, lists, live, pages.live, b, Size(d), JUNK, mem);
      Pushed(arenas, lists, live, pages.live, d, b);
      mem := Filled(mem, b, Size(d), JUNK);
      lists := lists[d := [b] + lists[d]];
      arenas := arenas[a := Small(d, arenas[a].freeCnt + 1)];
      live := live - {b};
      if arenas[a].freeCnt >= PerArena(d) {
        ghost var m := mem;
        DropArena(a, d);
        KeptTwice(live, old(mem), m, mem);
      } else {
        BusyNow(arenas, a, d);
      }
    }

    method FreeBig(b: nat)
      requires Valid() && b in live && b / 4096 in arenas && arenas[b / 4096].Big?
      modifies this, pages, pages.kernel.words, pages.user.words
      ensures Valid() && Foreign() == old(Foreign()) && live == old(live) - {b} && Kept(live, old(mem), mem)
    {
      hide Good, Apart, Busy, Kept, Filled, Marks, Covered;
      var a := b / 4096;
      var n := arenas[a].pages;
      ghost var extents := pages.live;
      GoodApart(arenas, lists, live, extents);
      BigGone(arenas, lists, live, extents, b);
      GoneKept(arenas - {a}, lists, live - {b}, extents, a, n, mem);
      GoneForeign(arenas, extents, a);
      pages.FreeMultiple(a, n);
      mem := Filled(mem, 4096 * a, 4096 * n, JUNK);
      arenas := arenas - {a};
      live := live - {b};
    }

    /** free */
    method Free(p: Option<nat>)
      requires Valid() && (p.Some? ==> p.value in live)
      modifies this, pages, pages.kernel.words, pages.user.words
      ensures Valid() && Foreign() == old(Foreign()) && Kept(live, old(mem), mem)
      ensures live == if p.None? then old(live) else old(live) - {p.value}
    {
      if p.Some? {
        GoodAt(arenas, lists, live, pages.live, p.value);
        match arenas[p.value / 4096]
        case Small(d, _) => FreeSmall(p.value, d);
        case Big(_) => FreeBig(p.value);
      }
    }

    /** When every block has been freed the page allocator has every page back. */
    lemma AllReturned()
      requires Valid() && live == map[]
      ensures arenas == map[] && Foreign() == pages.live
    {
      NothingLive(arenas, lists, pages.live);
    }

    /** block_size */
    function BlockSize(b: nat): (n: int)
      requires b / 4096 in arenas && (arenas[b / 4096].Small? ==> arenas[b / 4096].desc < 7)
      reads this
    {
      Room(arenas, b)
    }

    /** Block b has at most n bytes. */
    ghost predicate AtMost(b: nat, n: nat)
      reads this
    {
      b / 4096 in arenas && (arenas[b / 4096].Small? ==> arenas[b / 4096].desc < 7) && Room(arenas, b) <= n
    }

    /** The second half of calloc: malloc, and the block filled with zeros. */
    method MallocZeroed(size: U32) returns (r: Option<nat>)
      requires Valid() && size <= LARGEST
      modifies this, pages, pages.kernel.words, pages.user.words
      ensures Valid() && Foreign() == old(Foreign()) && Kept(old(live), old(mem), mem)
      ensures r.None? ==> live == old(live) && mem == old(mem) && (size == 0 || PagesFor(size) == 0 || Exhausted(PagesFor(size)))
      ensures r.Some? ==> size > 0 && r.value !in old(live) && live == old(live)[r.value := size] && ZeroAt(mem, r.value, size)
    {
      hide Good, Busy, Kept, Filled, Exhausted, Room, Covered, Apart, Marks, PagesFor, ZeroAt;
      KeptSame(live, mem);
      r := Malloc(size);
      if r.Some? {
        LiveInside(arenas, lists, live, pages.live, r.value);
        FillKeeps(arenas, lists, live, pages.live, r.value, size, 0, mem);
        assert live - {r.value} == old(live);
        FilledZero(mem, r.value, size);
        mem := Filled(mem, r.value, size, 0);
      }
    }

    /** calloc. The block is zero, and the others stay as they were. It fails if one of the numbers is
        zero, if the product is too long and seen to be, or because malloc does. */
    method Calloc(a: U32, b: U32) returns (r: Option<nat>)
      requires Valid() && var n := a * b % 0x1_0000_0000; n < a || n < b || n <= LARGEST
      modifies this, pages, pages.kernel.words, pages.user.words
      ensures Valid() && Foreign() == old(Foreign()) && Kept(old(live), old(mem), mem)
      ensures r.None? ==> live == old(live) && mem == old(mem)
      ensures r.None? && a * b < 0x1_0000_0000 ==>
                a == 0 || b == 0 || PagesFor(a * b) == 0 || Exhausted(PagesFor(a * b))
      ensures r.None? && a * b >= 0x1_0000_0000 ==>
                var n := a * b % 0x1_0000_0000; n < a || n < b || PagesFor(n) == 0 || Exhausted(PagesFor(n))
      ensures r.Some? ==> var n := a * b % 0x1_0000_0000;
                          a <= n && b <= n && r.value !in old(live) && live == old(live)[r.value := n] && ZeroAt(mem, r.value, n)
    {
      hide *;
      KeptSame(live, mem);
      var size := Product32(a, b);
      ProductIs(a, b);
      if size < a || size < b {
        return None;
      }
      r := MallocZeroed(size);
    }

    /** realloc. The new block is allocated before the old one is freed, so that failure leaves
        the old block as it was. */
    method Realloc(block: Option<nat>, newSize: U32) returns (r: Option<nat>)
      requires Valid() && (block.Some? ==> block.value in live)
      requires newSize > LARGEST && block.Some? ==> AtMost(block.value, 4096 - HEADER)
      modifies this, pages, pages.kernel.words, pages.user.words
      ensures Valid() && Foreign() == old(Foreign())
      ensures r.None? && newSize > 0 ==>
                live == old(live) && mem == old(mem) && (PagesFor(newSize) == 0 || Exhausted(PagesFor(newSize)))
      ensures newSize == 0 ==> r.None? && live == if block.Some? then old(live) - {block.value} else old(live)
      ensures r.Some? ==> r.value !in old(live)
                          && live == (if block.Some? then old(live) - {block.value} else old(live))[r.value := Granted(newSize)]
      ensures r.Some? && block.Some? ==>
                SameBytes(old(mem), block.value, mem, r.value, Least(newSize, old(live[block.value])))
      ensures Kept(if block.Some? then old(live) - {block.value} else old(live), old(mem), mem)
    {
      hide Good, Busy, Kept, Copied, SameBytes, Exhausted, Room, Covered, Apart, Marks, PagesFor, Granted;
      KeptSame(if block.Some? then live - {block.value} else live, mem);
      if newSize == 0 {
        Free(block);
        return None;
      }
      r := Malloc(newSize);
      if block.Some? && r.Some? {
        GoodAt(arenas, lists, live, pages.live, block.value);
        var oldSize := BlockSize(block.value);
        var minSize := if newSize < oldSize then newSize else oldSize;
        if newSize > LARGEST { SameRoom(old(arenas), arenas, block.value); }
        MoveBytes(arenas, lists, live, pages.live, block.value, r.value, newSize, mem);
        mem := Copied(mem, r.value, block.value, minSize);
        ghost var m := mem;
        Free(block);
        MovedThenFreed(live, old(live), r.value, newSize, block.value, old(mem), m, mem);
      }
    }
  }

  lemma SameRoom(before: Arenas, arenas: Arenas, b: nat)
    requires b / 4096 in before && (before[b / 4096].Small? ==> before[b / 4096].desc < 7)
    requires b / 4096 in arenas && arenas[b / 4096] == before[b / 4096]
    ensures Room(arenas, b) == Room(before, b)
  {
  }

  /** The memcpy of realloc, from a block to a new one. */
  lemma MoveBytes(arenas: Arenas, lists: Lists, live: map<nat, nat>, extents: Extents, from: nat, b: nat, newSize: U32, m: Memory)
    requires Good(arenas, lists, live, extents) && from in live && b in live && b != from && live[b] == Granted(newSize)
    requires from / 4096 in arenas && (arenas[from / 4096].Small? ==> arenas[from / 4096].desc < 7)
    requires newSize > LARGEST ==> Room(arenas, from) <= 4096 - HEADER
    ensures Room(arenas, from) >= 0 && Least(newSize, live[from]) <= Granted(newSize)
    ensures var m' := Copied(m, b, from, Least(newSize, Room(arenas, from)));
            Kept(live - {b}, m, m') && SameBytes(m, from, m', b, Least(newSize, live[from]))
  {
    hide Good, Kept, Copied, SameBytes, Room, Granted;
    LiveInside(arenas, lists, live, extents, from);
    var n := Least(newSize, Room(arenas, from));
    CopyFits(newSize, Room(arenas, from));
    CopyKeeps(arenas, lists, live, extents, b, from, n, m);
    CopyBytes(m, b, from, n);
    FewerBytes(m, from, Copied(m, b, from, n), b, n, Least(newSize, live[from]));
  }

  /** Copying into block b leaves the other blocks as they were. */
  lemma CopyKeeps(arenas: Arenas, lists: Lists, live: map<nat, nat>, extents: Extents, b: nat, from: nat, n: nat, m: Memory)
    requires Good(arenas, lists, live, extents) && b in live && n <= live[b]
    ensures Kept(live - {b}, m, Copied(m, b, from, n))
  {
    hide Good, KeptAt, Copied, Room;
    forall c | c in live && c != b
      ensures KeptAt(c, live[c], m, Copied(m, b, from, n))
    {
      LiveApart(arenas, lists, live, extents, b, c);
      LiveInside(arenas, lists, live, extents, b);
      LiveInside(arenas, lists, live, extents, c);
      CopyApart(m, b, from, n, c, live[c]);
    }
  }

  lemma CopyApart(m: Memory, to: nat, from: nat, n: nat, c: nat, k: nat)
    requires to + n <= c || c + k <= to
    ensures KeptAt(c, k, m, Copied(m, to, from, n))
  {
  }

  lemma MovedThenFreed(live: map<nat, nat>, before: map<nat, nat>, b: nat, size: U32, from: nat,
                       m0: Memory, m1: Memory, m2: Memory)
    requires from in before && b !in before && live == before[b := Granted(size)] - {from}
    requires Kept(before[b := Granted(size)] - {b}, m0, m1) && Kept(live, m1, m2)
    requires Least(size, before[from]) <= Granted(size) && SameBytes(m0, from, m1, b, Least(size, before[from]))
    ensures Kept(before - {from}, m0, m2) && SameBytes(m0, from, m2, b, Least(size, before[from]))
  {
    hide KeptAt, Granted, Least;
    var rest := before - {from};
    forall c | c in rest
      ensures KeptAt(c, rest[c], m0, m2)
    {
      assert KeptAt(c, (before[b := Granted(size)] - {b})[c], m0, m1);
      assert KeptAt(c, live[c], m1, m2);
      KeptAtTwice(c, rest[c], m0, m1, m2);
    }
    assert KeptAt(b, live[b], m1, m2);
    SameKept(m0, from, m1, b, Least(size, before[from]), m2, live[b]);
  }

  lemma SameKept(m0: Memory, from: nat, m1: Memory, b: nat, n: nat, m2: Memory, size: nat)
    requires SameBytes(m0, from, m1, b, n) && KeptAt(b, size, m1, m2) && n <= size
    ensures SameBytes(m0, from, m2, b, n)
  {
    forall k: nat | k < n
      ensures ByteAt(m2, b, k) == ByteAt(m0, from, k)
    {
      assert ByteAt(m1, b, k) == ByteAt(m0, from, k);
    }
  }

  lemma KeptAtTwice(c: nat, n: nat, a: Memory, b: Memory, d: Memory)
    requires KeptAt(c, n, a, b) && KeptAt(c, n, b, d)
    ensures KeptAt(c, n, a, d)
  {
  }

  lemma CopyBytes(m: Memory, to: nat, from: nat, n: nat)
    ensures SameBytes(m, from, Copied(m, to, from, n), to, n)
  {
  }

  lemma BusyNow(arenas: Arenas, a: nat, d: nat)
    requires BusyBut(arenas, a) && d < 7 && SmallAt(arenas, a, d) && arenas[a].freeCnt < PerArena(d)
    ensures Busy(arenas)
  {
  }

  lemma GoodParts(arenas: Arenas, lists: Lists, live: map<nat, nat>, extents: Extents, a: nat, d: nat)
    requires Good(arenas, lists, live, extents) && d < 7 && SmallAt(arenas, a, d)
    ensures ListsOk(arenas, lists) && Counted(arenas, lists) && NoDup(lists[d]) && a in arenas && a in extents && extents[a] == 1
  {
    assert ListOk(arenas, d, lists[d]);
  }

  lemma GoodApart(arenas: Arenas, lists: Lists, live: map<nat, nat>, extents: Extents)
    requires Good(arenas, lists, live, extents)
    ensures Apart(extents) && PagesOk(arenas, extents)
  {
  }

  lemma GoodAt(arenas: Arenas, lists: Lists, live: map<nat, nat>, extents: Extents, b: nat)
    requires Good(arenas, lists, live, extents) && b in live
    ensures b / 4096 in arenas && (arenas[b / 4096].Small? ==> arenas[b / 4096].desc < 7)
  {
    LiveSmall(arenas, lists, live, b);
  }

  lemma BusyAll(arenas: Arenas, a: nat)
    requires Busy(arenas)
    ensures BusyBut(arenas, a)
  {
  }
}

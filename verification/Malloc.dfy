/** The block allocator (src/threads/malloc.c): power-of-two descriptors with free lists, arenas
    of one page each, and big blocks of whole pages, over the page allocator. */
module Malloc {
  import opened Common
  import opened Pages

  const HEADER: nat := 12                            // sizeof (struct arena)

  datatype Desc = Desc(blockSize: nat, perArena: nat)

  /** An arena: its descriptor and count of free blocks, or the pages of a big block. */
  datatype Arena = Small(desc: nat, freeCnt: nat) | Big(pages: nat)

  type Arenas = map<nat, Arena>                      // by page

  // ----- Descriptors -----

  function Descs(): (r: seq<Desc>) {
    [Desc(16, 255), Desc(32, 127), Desc(64, 63), Desc(128, 31), Desc(256, 15), Desc(512, 7), Desc(1024, 3)]
  }

  function Size(d: nat): (s: nat)
    requires d < 7
  {
    Descs()[d].blockSize
  }

  function PerArena(d: nat): (n: nat)
    requires d < 7
  {
    Descs()[d].perArena
  }

  /** malloc_init */
  method MallocInit() returns (descs: seq<Desc>)
    ensures descs == Descs() && |descs| == 7
    ensures forall d | 0 <= d < 7 :: descs[d].blockSize == 16 * Pow2(d) && HEADER + descs[d].perArena * descs[d].blockSize <= 4096
    ensures forall d | 0 <= d < 7 :: HEADER + (descs[d].perArena + 1) * descs[d].blockSize > 4096
  {
    descs := [];
    var blockSize := 16;
    while blockSize < 4096 / 2
      invariant |descs| <= 7 && descs == Descs()[..|descs|]
      invariant blockSize == if |descs| == 7 then 2048 else Descs()[|descs|].blockSize
      decreases 2048 - blockSize
    {
      descs := descs + [Desc(blockSize, (4096 - HEADER) / blockSize)];
      blockSize := blockSize * 2;
    }
    assert Pow2(2) == 4 && Pow2(3) == 8 && Pow2(4) == 16 && Pow2(5) == 32 && Pow2(6) == 64;
  }

  lemma DescFacts(d: nat)
    requires d < 7
    ensures Size(d) >= 16 && PerArena(d) >= 3 && HEADER + PerArena(d) * Size(d) <= 4096
  {
  }

  // ----- Blocks within an arena -----

  /** arena_to_block */
  function BlockAt(p: nat, d: nat, i: nat): (b: nat)
    requires d < 7
  {
    4096 * p + HEADER + i * Size(d)
  }

  /** pg_round_down finds the arena, and the checks of block_to_arena hold. */
  lemma Placed(p: nat, d: nat, i: nat)
    requires d < 7 && i < PerArena(d)
    ensures BlockAt(p, d, i) / 4096 == p && BlockAt(p, d, i) % 4096 == HEADER + i * Size(d)
    ensures HEADER + i * Size(d) + Size(d) <= 4096
    ensures (BlockAt(p, d, i) % 4096 - HEADER) % Size(d) == 0
  {
    DescFacts(d);
    MulLe(i + 1, PerArena(d), Size(d));
    assert (i + 1) * Size(d) == i * Size(d) + Size(d);
    Offset(i, Size(d), 0);
  }

  lemma Offset(i: nat, n: nat, k: nat)
    requires k < n
    ensures (i * n + k) % n == k
  {
    var q, r := (i * n + k) / n, (i * n + k) % n;
    assert (i - q) * n == r - k;
    if i < q { MulNeg(q - i, n); } else if i > q { MulLe(1, i - q, n); }
  }

  lemma MulNeg(k: int, n: int)
    requires k > 0 && n > 0
    ensures (-k) * n <= -n
  {
    MulLe(1, k, n);
    assert (-k) * n == -(k * n);
  }

  lemma Spaced(p: nat, d: nat, i: nat, j: nat)
    requires d < 7 && i < j
    ensures BlockAt(p, d, i) + Size(d) <= BlockAt(p, d, j)
  {
    MulLe(i + 1, j, Size(d));
    assert (i + 1) * Size(d) == i * Size(d) + Size(d);
  }

  ghost function FirstBlocks(p: nat, d: nat, n: nat): (r: set<nat>)
    requires d < 7
  {
    set i | 0 <= i < n :: BlockAt(p, d, i)
  }

  /** All the blocks of an arena. */
  ghost function Blocks(p: nat, d: nat): (r: set<nat>)
    requires d < 7
  {
    FirstBlocks(p, d, PerArena(d))
  }

  lemma {:induction false} BlockCount(p: nat, d: nat, n: nat)
    requires d < 7
    ensures |FirstBlocks(p, d, n)| == n
  {
    if n == 0 {
      assert FirstBlocks(p, d, 0) == {};
    } else {
      BlockCount(p, d, n - 1);
      DescFacts(d);
      forall i | 0 <= i < n - 1
        ensures BlockAt(p, d, i) != BlockAt(p, d, n - 1)
      {
        Spaced(p, d, i, n - 1);
      }
      assert FirstBlocks(p, d, n) == FirstBlocks(p, d, n - 1) + {BlockAt(p, d, n - 1)};
    }
  }

  lemma InBlocks(p: nat, d: nat, b: nat) returns (i: nat)
    requires d < 7 && b in Blocks(p, d)
    ensures i < PerArena(d) && b == BlockAt(p, d, i) && b / 4096 == p && b % 4096 >= HEADER
    ensures b + Size(d) <= 4096 * (p + 1)
  {
    i :| 0 <= i < PerArena(d) && b == BlockAt(p, d, i);
    Placed(p, d, i);
  }

  // ----- The state -----

  type Lists = f: seq<seq<nat>> | |f| == 7 witness seq(7, _ => [])

  /** The free blocks in page p. */
  ghost function FreeIn(f: seq<nat>, p: nat): (r: set<nat>) {
    set b | b in f && b / 4096 == p
  }

  ghost predicate SmallAt(arenas: Arenas, p: nat, d: nat) {
    p in arenas && arenas[p].Small? && arenas[p].desc == d
  }

  /** A free list holds blocks of arenas of its own descriptor, each once. */
  ghost predicate ListOk(arenas: Arenas, d: nat, f: seq<nat>)
    requires d < 7
  {
    NoDup(f) && forall b | b in f :: SmallAt(arenas, b / 4096, d) && b in Blocks(b / 4096, d)
  }

  ghost predicate ListsOk(arenas: Arenas, lists: Lists) {
    && (forall d | 0 <= d < 7 :: ListOk(arenas, d, lists[d]))
    && (forall p | p in arenas && arenas[p].Small? :: arenas[p].desc < 7)
  }

  /** free_cnt is the number of the arena's blocks on the free list. */
  ghost predicate Counted(arenas: Arenas, lists: Lists) {
    forall p | p in arenas && arenas[p].Small? && arenas[p].desc < 7 ::
      arenas[p].freeCnt == |FreeIn(lists[arenas[p].desc], p)|
  }

  /** Every arena has a block in use. */
  ghost predicate Busy(arenas: Arenas) {
    forall p | p in arenas && arenas[p].Small? && arenas[p].desc < 7 :: arenas[p].freeCnt < PerArena(arenas[p].desc)
  }

  /** b is handed out for a request of n bytes. */
  ghost predicate HandedOut(arenas: Arenas, lists: Lists, b: nat, n: nat) {
    var p := b / 4096;
    && p in arenas && 0 < n
    && match arenas[p]
       case Small(d, _) => d < 7 && b in Blocks(p, d) && b !in lists[d] && n <= Size(d)
       case Big(pages) => b == 4096 * p + HEADER && HEADER + n <= 4096 * pages
  }

  /** What is handed out is exactly what is not on a free list. */
  ghost predicate LiveOk(arenas: Arenas, lists: Lists, live: map<nat, nat>) {
    && (forall b | b in live :: HandedOut(arenas, lists, b, live[b]))
    && (forall p, b | p in arenas && arenas[p].Small? && arenas[p].desc < 7 && b in Blocks(p, arenas[p].desc) ::
          b in lists[arenas[p].desc] || b in live)
    && (forall p | p in arenas && arenas[p].Big? :: 4096 * p + HEADER in live)
  }

  function Length(a: Arena): (n: nat) {
    if a.Small? then 1 else a.pages
  }

  /** Arenas are extents of the page allocator. */
  ghost predicate PagesOk(arenas: Arenas, extents: Extents) {
    forall p | p in arenas :: p in extents && extents[p] == Length(arenas[p])
  }

  ghost predicate Good(arenas: Arenas, lists: Lists, live: map<nat, nat>, extents: Extents) {
    && ListsOk(arenas, lists) && Counted(arenas, lists) && LiveOk(arenas, lists, live)
    && PagesOk(arenas, extents) && Apart(extents)
  }

  /** block_size: the bytes there are for block b. */
  function Room(arenas: Arenas, b: nat): (n: int)
    requires b / 4096 in arenas && (arenas[b / 4096].Small? ==> arenas[b / 4096].desc < 7)
  {
    match arenas[b / 4096]
    case Small(d, _) => Size(d)
    case Big(pages) => 4096 * pages - b % 4096
  }

  // ----- What the state promises -----

  /** A block in use lies in its arena behind the header and has room for the request. */
  lemma LiveInside(arenas: Arenas, lists: Lists, live: map<nat, nat>, extents: Extents, b: nat)
    requires Good(arenas, lists, live, extents) && b in live
    ensures var p := b / 4096;
            && p in arenas && (arenas[p].Small? ==> arenas[p].desc < 7)
            && p in extents && b % 4096 >= HEADER && 0 < live[b] <= Room(arenas, b)
            && b + Room(arenas, b) <= 4096 * (p + extents[p])
  {
    var p := b / 4096;
    assert HandedOut(arenas, lists, b, live[b]);
    if arenas[p].Small? {
      var i := InBlocks(p, arenas[p].desc, b);
    }
  }

  /** The checks of block_to_arena on a pointer. */
  ghost predicate Accepted(arenas: Arenas, p: nat) {
    && p / 4096 in arenas
    && match arenas[p / 4096]
       case Small(d, _) => d < 7 && (p % 4096 - HEADER) % Size(d) == 0
       case Big(_) => p % 4096 == HEADER
  }

  /** A pointer into a block in use passes them exactly if it points to the start of the block. */
  lemma AcceptedExactly(arenas: Arenas, lists: Lists, live: map<nat, nat>, extents: Extents, b: nat, k: nat)
    requires Good(arenas, lists, live, extents) && b in live && k < live[b]
    ensures Accepted(arenas, b + k) <==> k == 0
  {
    hide *;
    LiveInside(arenas, lists, live, extents, b);
    GoodLive(arenas, lists, live, extents);
    LiveSmall(arenas, lists, live, b);
    var p, q := b / 4096, (b + k) / 4096;
    PagesOf(b, Room(arenas, b), k, extents[p]);
    if q != p {
      OtherPage(arenas, lists, live, extents, p, q);
      NoArena(arenas, b + k);
    } else if arenas[p].Small? {
      RoomIs(arenas, b);
      InnerSmall(arenas, b, k);
    } else {
      InnerBig(arenas, b, k);
    }
  }

  lemma RoomIs(arenas: Arenas, b: nat)
    requires b / 4096 in arenas && arenas[b / 4096].Small? && arenas[b / 4096].desc < 7
    ensures Room(arenas, b) == Size(arenas[b / 4096].desc)
  {
  }

  lemma PagesOf(b: nat, room: int, k: nat, pages: nat)
    requires k < room && b + room <= 4096 * (b / 4096 + pages)
    ensures b / 4096 <= (b + k) / 4096 < b / 4096 + pages
  {
  }

  lemma GoodLive(arenas: Arenas, lists: Lists, live: map<nat, nat>, extents: Extents)
    requires Good(arenas, lists, live, extents)
    ensures LiveOk(arenas, lists, live)
  {
  }

  /** No other arena starts within the pages of one. */
  lemma OtherPage(arenas: Arenas, lists: Lists, live: map<nat, nat>, extents: Extents, p: nat, q: nat)
    requires Good(arenas, lists, live, extents) && p in arenas && p in extents && p < q < p + extents[p]
    ensures q !in arenas
  {
    hide ListsOk, Counted, LiveOk;
  }

  lemma NoArena(arenas: Arenas, p: nat)
    requires p / 4096 !in arenas
    ensures !Accepted(arenas, p)
  {
  }

  lemma InnerSmall(arenas: Arenas, b: nat, k: nat)
    requires b / 4096 in arenas && arenas[b / 4096].Small? && arenas[b / 4096].desc < 7 && (b + k) / 4096 == b / 4096
    requires b in Blocks(b / 4096, arenas[b / 4096].desc) && k < Size(arenas[b / 4096].desc)
    ensures Accepted(arenas, b + k) <==> k == 0
  {
    hide Size, PerArena, Blocks;
    var p, d := b / 4096, arenas[b / 4096].desc;
    var i := InBlocks(p, d, b);
    Placed(p, d, i);
    assert (b + k) % 4096 - HEADER == i * Size(d) + k;
    Offset(i, Size(d), k);
  }

  lemma InnerBig(arenas: Arenas, b: nat, k: nat)
    requires b / 4096 in arenas && arenas[b / 4096].Big? && (b + k) / 4096 == b / 4096 && b == 4096 * (b / 4096) + HEADER
    ensures Accepted(arenas, b + k) <==> k == 0
  {
  }

  /** Blocks in use do not overlap. */
  lemma LiveApart(arenas: Arenas, lists: Lists, live: map<nat, nat>, extents: Extents, b: nat, c: nat)
    requires Good(arenas, lists, live, extents) && b in live && c in live && b != c
    ensures b / 4096 in arenas && (arenas[b / 4096].Small? ==> arenas[b / 4096].desc < 7)
    ensures c / 4096 in arenas && (arenas[c / 4096].Small? ==> arenas[c / 4096].desc < 7)
    ensures b + Room(arenas, b) <= c || c + Room(arenas, c) <= b
  {
    LiveInside(arenas, lists, live, extents, b);
    LiveInside(arenas, lists, live, extents, c);
    var p, q := b / 4096, c / 4096;
    if p == q {
      assert HandedOut(arenas, lists, b, live[b]) && HandedOut(arenas, lists, c, live[c]);
      if arenas[p].Small? {
        var d := arenas[p].desc;
        var i := InBlocks(p, d, b);
        var j := InBlocks(p, d, c);
        if i < j { Spaced(p, d, i, j); } else { Spaced(p, d, j, i); }
      }
    } else {
      assert p + extents[p] <= q || q + extents[q] <= p;
    }
  }

  /** Every arena has a block in use, so that when nothing is in use every page went back. */
  lemma ArenaInUse(arenas: Arenas, lists: Lists, live: map<nat, nat>, extents: Extents, p: nat) returns (b: nat)
    requires Good(arenas, lists, live, extents) && Busy(arenas) && p in arenas
    ensures b in live && b / 4096 == p
  {
    hide FirstBlocks, PerArena, Apart, PagesOk, HandedOut, ListOk;
    if arenas[p].Small? {
      var d := arenas[p].desc;
      BlockCount(p, d, PerArena(d));
      b := Missing(Blocks(p, d), FreeIn(lists[d], p));
      var i := InBlocks(p, d, b);
    } else {
      b := 4096 * p + HEADER;
    }
  }

  lemma Missing(a: set<nat>, b: set<nat>) returns (x: nat)
    requires |a| > |b|
    ensures x in a && x !in b
  {
    SubsetCount(a - (a - b), b);
    assert a == (a - (a - b)) + (a - b);
    x :| x in a - b;
  }

  lemma NothingLive(arenas: Arenas, lists: Lists, extents: Extents)
    requires Good(arenas, lists, map[], extents) && Busy(arenas)
    ensures arenas == map[]
  {
    if p :| p in arenas {
      var b := ArenaInUse(arenas, lists, map[], extents, p);
    }
  }

  lemma SubsetCount(a: set<nat>, b: set<nat>)
    requires a <= b
    ensures |a| <= |b|
  {
    assert b == a + (b - a);
  }

  // ----- Taking a block from a free list -----

  ghost predicate BusyBut(arenas: Arenas, a: nat) {
    forall p | p in arenas && p != a && arenas[p].Small? && arenas[p].desc < 7 ::
      arenas[p].freeCnt < PerArena(arenas[p].desc)
  }

  lemma FreeAtMost(arenas: Arenas, lists: Lists, p: nat)
    requires ListsOk(arenas, lists) && Counted(arenas, lists) && p in arenas && arenas[p].Small?
    ensures arenas[p].freeCnt <= PerArena(arenas[p].desc)
  {
    var d := arenas[p].desc;
    hide FirstBlocks, PerArena;
    BlockCount(p, d, PerArena(d));
    SubsetCount(FreeIn(lists[d], p), Blocks(p, d));
  }

  lemma FreeInTail(f: seq<nat>, p: nat)
    requires f != [] && NoDup(f)
    ensures FreeIn(f[1..], p) == FreeIn(f, p) - {f[0]} && NoDup(f[1..])
    ensures |FreeIn(f[1..], p)| == |FreeIn(f, p)| - if f[0] / 4096 == p then 1 else 0
    ensures forall b :: b in f[1..] <==> b in f && b != f[0]
  {
    assert f == [f[0]] + f[1..];
    assert f[0] / 4096 == p ==> f[0] in FreeIn(f, p);
  }

  lemma PopLists(arenas: Arenas, lists: Lists, d: nat)
    requires ListsOk(arenas, lists) && Counted(arenas, lists) && d < 7 && lists[d] != []
    ensures var b := lists[d][0];
            var a := b / 4096;
            && SmallAt(arenas, a, d) && b in Blocks(a, d) && arenas[a].freeCnt > 0
            && var arenas', lists' := arenas[a := Small(d, arenas[a].freeCnt - 1)], lists[d := lists[d][1..]];
               ListsOk(arenas', lists') && Counted(arenas', lists')
  {
    hide FirstBlocks, PerArena;
    var f := lists[d];
    var b := f[0];
    var a := b / 4096;
    assert ListOk(arenas, d, f) && b in f;
    FreeInTail(f, a);
    var arenas', lists' := arenas[a := Small(d, arenas[a].freeCnt - 1)], lists[d := f[1..]];
    forall e | 0 <= e < 7
      ensures ListOk(arenas', e, lists'[e])
    {
      assert ListOk(arenas, e, lists[e]);
    }
    forall p | p in arenas' && arenas'[p].Small? && arenas'[p].desc < 7
      ensures arenas'[p].freeCnt == |FreeIn(lists'[arenas'[p].desc], p)|
    {
      FreeInTail(f, p);
    }
  }

  lemma PopLive(arenas: Arenas, lists: Lists, live: map<nat, nat>, d: nat, n: nat, k: nat, arenas': Arenas, lists': Lists)
    requires ListsOk(arenas, lists) && LiveOk(arenas, lists, live) && d < 7 && lists[d] != [] && 0 < n <= Size(d)
    requires SmallAt(arenas, lists[d][0] / 4096, d) && lists[d][0] in Blocks(lists[d][0] / 4096, d)
    requires arenas' == arenas[lists[d][0] / 4096 := Small(d, k)] && lists' == lists[d := lists[d][1..]]
    ensures lists[d][0] !in live && LiveOk(arenas', lists', live[lists[d][0] := n])
  {
    hide FirstBlocks, PerArena, Size;
    var f := lists[d];
    var b := f[0];
    assert ListOk(arenas, d, f);
    FreeInTail(f, b / 4096);
    assert b in live ==> HandedOut(arenas, lists, b, live[b]);
    forall c | c in live
      ensures HandedOut(arenas', lists', c, live[c])
    {
      assert HandedOut(arenas, lists, c, live[c]);
    }
  }

  /** Handing out the first block of a free list. */
  lemma Popped(arenas: Arenas, lists: Lists, live: map<nat, nat>, extents: Extents, d: nat, n: nat)
    requires Good(arenas, lists, live, extents) && d < 7 && lists[d] != [] && 0 < n <= Size(d)
    requires BusyBut(arenas, lists[d][0] / 4096)
    ensures var b := lists[d][0];
            var a := b / 4096;
            && SmallAt(arenas, a, d) && arenas[a].freeCnt > 0 && b !in live
            && var arenas', lists' := arenas[a := Small(d, arenas[a].freeCnt - 1)], lists[d := lists[d][1..]];
               Good(arenas', lists', live[b := n], extents) && Busy(arenas')
  {
    hide FirstBlocks, PerArena, Size, ListsOk, Counted, LiveOk, Apart;
    PopLists(arenas, lists, d);
    var a := lists[d][0] / 4096;
    FreeAtMost(arenas, lists, a);
    PopLive(arenas, lists, live, d, n, arenas[a].freeCnt - 1, arenas[a := Small(d, arenas[a].freeCnt - 1)], lists[d := lists[d][1..]]);
  }

  // ----- A new arena -----

  function BlockList(p: nat, d: nat, n: nat): (f: seq<nat>)
    requires d < 7
    ensures |f| == n && forall i | 0 <= i < n :: f[i] == BlockAt(p, d, i)
  {
    seq(n, i requires 0 <= i < n => BlockAt(p, d, i))
  }

  lemma BlockListOk(p: nat, d: nat)
    requires d < 7
    ensures var f := BlockList(p, d, PerArena(d));
            && NoDup(f) && f != [] && f[0] / 4096 == p && FreeIn(f, p) == Blocks(p, d)
            && (forall b | b in f :: b / 4096 == p && b in Blocks(p, d))
            && |FreeIn(f, p)| == PerArena(d) && (forall q | q != p :: FreeIn(f, q) == {})
  {
    var n := PerArena(d);
    var f := BlockList(p, d, n);
    DescFacts(d);
    forall i, j | 0 <= i < j < n
      ensures f[i] != f[j]
    {
      Spaced(p, d, i, j);
    }
    forall i | 0 <= i < n
      ensures f[i] / 4096 == p && f[i] in Blocks(p, d)
    {
      Placed(p, d, i);
    }
    forall b | b in Blocks(p, d)
      ensures b in f
    {
      var i := InBlocks(p, d, b);
      assert f[i] == b;
    }
    BlockCount(p, d, n);
  }

  /** No block of a page that is no arena is on a list or in use. */
  lemma Unknown(arenas: Arenas, lists: Lists, live: map<nat, nat>, p: nat)
    requires ListsOk(arenas, lists) && LiveOk(arenas, lists, live) && p !in arenas
    ensures forall d, b | 0 <= d < 7 && b in lists[d] :: b / 4096 != p
    ensures forall b | b in live :: b / 4096 != p
  {
    forall d, b | 0 <= d < 7 && b in lists[d]
      ensures b / 4096 != p
    {
      assert ListOk(arenas, d, lists[d]);
    }
    forall b | b in live
      ensures b / 4096 != p
    {
      assert HandedOut(arenas, lists, b, live[b]);
    }
  }

  lemma NewArenaLists(arenas: Arenas, lists: Lists, d: nat, p: nat, f: seq<nat>)
    requires ListsOk(arenas, lists) && Counted(arenas, lists) && d < 7 && lists[d] == [] && p !in arenas
    requires forall e, b | 0 <= e < 7 && b in lists[e] :: b / 4096 != p
    requires f == BlockList(p, d, PerArena(d))
    ensures var arenas', lists' := arenas[p := Small(d, PerArena(d))], lists[d := f];
            ListsOk(arenas', lists') && Counted(arenas', lists')
  {
    BlockListOk(p, d);
    hide FirstBlocks, PerArena, BlockList;
    var arenas', lists' := arenas[p := Small(d, PerArena(d))], lists[d := f];
    forall e | 0 <= e < 7
      ensures ListOk(arenas', e, lists'[e])
    {
      assert ListOk(arenas, e, lists[e]);
    }
    forall q | q in arenas' && arenas'[q].Small? && arenas'[q].desc < 7
      ensures arenas'[q].freeCnt == |FreeIn(lists'[arenas'[q].desc], q)|
    {
      assert FreeIn([], q) == {};
    }
  }

  lemma NewArenaLive(arenas: Arenas, lists: Lists, live: map<nat, nat>, d: nat, p: nat, f: seq<nat>)
    requires LiveOk(arenas, lists, live) && d < 7 && lists[d] == [] && p !in arenas
    requires forall b | b in live :: b / 4096 != p
    requires f == BlockList(p, d, PerArena(d))
    ensures LiveOk(arenas[p := Small(d, PerArena(d))], lists[d := f], live)
  {
    BlockListOk(p, d);
    hide FirstBlocks, PerArena, BlockList, Size;
    var arenas', lists' := arenas[p := Small(d, PerArena(d))], lists[d := f];
    forall c | c in live
      ensures HandedOut(arenas', lists', c, live[c])
    {
      assert HandedOut(arenas, lists, c, live[c]);
    }
    assert forall b | b in Blocks(p, d) :: b in FreeIn(f, p);
  }

  /** A new arena, all of its blocks on the free list. */
  lemma NewArena(arenas: Arenas, lists: Lists, live: map<nat, nat>, extents: Extents, d: nat, p: nat, f: seq<nat>)
    requires Good(arenas, lists, live, extents) && d < 7 && lists[d] == []
    requires p !in extents && Apart(extents[p := 1]) && f == BlockList(p, d, PerArena(d))
    ensures p !in arenas && f != [] && f[0] / 4096 == p
    ensures Good(arenas[p := Small(d, PerArena(d))], lists[d := f], live, extents[p := 1])
  {
    BlockListOk(p, d);
    assert p !in arenas;
    hide FirstBlocks, PerArena, BlockList, ListsOk, Counted, LiveOk, Apart;
    Unknown(arenas, lists, live, p);
    NewArenaLists(arenas, lists, d, p, f);
    NewArenaLive(arenas, lists, live, d, p, f);
  }

  // ----- Big blocks -----

  lemma BigOther(arenas: Arenas, lists: Lists, p: nat, a: Arena, c: nat, n: nat)
    requires HandedOut(arenas, lists, c, n) && c / 4096 != p
    ensures HandedOut(arenas[p := a], lists, c, n)
  {
  }

  lemma BigSelf(arenas: Arenas, lists: Lists, p: nat, pages: nat, n: nat)
    requires 0 < n && HEADER + n <= 4096 * pages
    ensures HandedOut(arenas[p := Big(pages)], lists, 4096 * p + HEADER, n)
  {
    assert (4096 * p + HEADER) / 4096 == p;
  }

  lemma BigLive(arenas: Arenas, lists: Lists, live: map<nat, nat>, p: nat, pages: nat, n: nat)
    requires LiveOk(arenas, lists, live) && p !in arenas && 0 < n && HEADER + n <= 4096 * pages
    requires forall b | b in live :: b / 4096 != p
    ensures LiveOk(arenas[p := Big(pages)], lists, live[4096 * p + HEADER := n])
  {
    hide FirstBlocks, Blocks, PerArena, Size, HandedOut;
    var arenas', b := arenas[p := Big(pages)], 4096 * p + HEADER;
    var live' := live[b := n];
    BigSelf(arenas, lists, p, pages, n);
    forall c | c in live'
      ensures HandedOut(arenas', lists, c, live'[c])
    {
      if c != b { BigOther(arenas, lists, p, Big(pages), c, live[c]); }
    }
  }

  lemma BigLists(arenas: Arenas, lists: Lists, p: nat, a: Arena)
    requires ListsOk(arenas, lists) && Counted(arenas, lists) && p !in arenas && a.Big?
    requires forall e, b | 0 <= e < 7 && b in lists[e] :: b / 4096 != p
    ensures ListsOk(arenas[p := a], lists) && Counted(arenas[p := a], lists)
  {
    hide FirstBlocks, PerArena;
    forall e | 0 <= e < 7
      ensures ListOk(arenas[p := a], e, lists[e])
    {
      assert ListOk(arenas, e, lists[e]);
    }
  }

  lemma NewBig(arenas: Arenas, lists: Lists, live: map<nat, nat>, extents: Extents, p: nat, pages: nat, n: nat)
    requires Good(arenas, lists, live, extents) && Busy(arenas) && 0 < n && HEADER + n <= 4096 * pages
    requires p !in extents && Apart(extents[p := pages])
    ensures p !in arenas && 4096 * p + HEADER !in live
    ensures Good(arenas[p := Big(pages)], lists, live[4096 * p + HEADER := n], extents[p := pages])
    ensures Busy(arenas[p := Big(pages)])
  {
    assert p !in arenas && (4096 * p + HEADER) / 4096 == p;
    hide FirstBlocks, PerArena, ListsOk, Counted, LiveOk, Apart;
    Unknown(arenas, lists, live, p);
    BigLists(arenas, lists, p, Big(pages));
    BigLive(arenas, lists, live, p, pages, n);
  }

  // ----- Giving a block back -----

  lemma FreeInCons(f: seq<nat>, b: nat, p: nat)
    requires NoDup(f) && b !in f
    ensures NoDup([b] + f) && |FreeIn([b] + f, p)| == |FreeIn(f, p)| + if b / 4096 == p then 1 else 0
    ensures forall c :: c in [b] + f <==> c == b || c in f
  {
    hide NoDup;
    ConsNoDup(b, f);
    assert FreeIn([b] + f, p) == FreeIn(f, p) + if b / 4096 == p then {b} else {};
  }

  lemma PushLists(arenas: Arenas, lists: Lists, d: nat, b: nat)
    requires ListsOk(arenas, lists) && Counted(arenas, lists) && d < 7 && b !in lists[d]
    requires SmallAt(arenas, b / 4096, d) && b in Blocks(b / 4096, d)
    ensures var a := b / 4096;
            var arenas', lists' := arenas[a := Small(d, arenas[a].freeCnt + 1)], lists[d := [b] + lists[d]];
            ListsOk(arenas', lists') && Counted(arenas', lists')
  {
    hide FirstBlocks, PerArena;
    var f, a := lists[d], b / 4096;
    assert ListOk(arenas, d, f);
    FreeInCons(f, b, a);
    var arenas', lists' := arenas[a := Small(d, arenas[a].freeCnt + 1)], lists[d := [b] + f];
    forall e | 0 <= e < 7
      ensures ListOk(arenas', e, lists'[e])
    {
      assert ListOk(arenas, e, lists[e]);
    }
    forall p | p in arenas' && arenas'[p].Small? && arenas'[p].desc < 7
      ensures arenas'[p].freeCnt == |FreeIn(lists'[arenas'[p].desc], p)|
    {
      FreeInCons(f, b, p);
    }
  }

  lemma PushOther(arenas: Arenas, lists: Lists, d: nat, b: nat, k: nat, c: nat, n: nat)
    requires HandedOut(arenas, lists, c, n) && c != b && d < 7 && SmallAt(arenas, b / 4096, d)
    ensures HandedOut(arenas[b / 4096 := Small(d, k)], lists[d := [b] + lists[d]], c, n)
  {
    hide FirstBlocks, Blocks, Size;
  }

  lemma PushCovers(arenas: Arenas, lists: Lists, live: map<nat, nat>, d: nat, b: nat, p: nat, c: nat)
    requires LiveOk(arenas, lists, live) && d < 7 && SmallAt(arenas, b / 4096, d)
    requires p in arenas && arenas[p].Small? && arenas[p].desc < 7 && c in Blocks(p, arenas[p].desc)
    ensures c in lists[d := [b] + lists[d]][arenas[p].desc] || (c in live && c != b)
  {
    hide FirstBlocks, Size, HandedOut;
    assert c in lists[arenas[p].desc] || c in live;
    var i := InBlocks(p, arenas[p].desc, c);
  }

  lemma PushLive(arenas: Arenas, lists: Lists, live: map<nat, nat>, d: nat, b: nat, k: nat, arenas': Arenas, lists': Lists)
    requires LiveOk(arenas, lists, live) && d < 7 && b in live && SmallAt(arenas, b / 4096, d)
    requires arenas' == arenas[b / 4096 := Small(d, k)] && lists' == lists[d := [b] + lists[d]]
    ensures LiveOk(arenas', lists', live - {b})
  {
    hide FirstBlocks, Blocks, PerArena, Size, HandedOut;
    var live' := live - {b};
    forall c | c in live'
      ensures HandedOut(arenas', lists', c, live'[c])
    {
      PushOther(arenas, lists, d, b, k, c, live[c]);
    }
    forall p, c | p in arenas' && arenas'[p].Small? && arenas'[p].desc < 7 && c in Blocks(p, arenas'[p].desc)
      ensures c in lists'[arenas'[p].desc] || c in live'
    {
      PushCovers(arenas, lists, live, d, b, p, c);
    }
    forall p | p in arenas' && arenas'[p].Big?
      ensures 4096 * p + HEADER in live'
    {
      assert (4096 * p + HEADER) / 4096 == p;
    }
  }

  lemma LiveSmall(arenas: Arenas, lists: Lists, live: map<nat, nat>, b: nat)
    requires LiveOk(arenas, lists, live) && b in live
    ensures b / 4096 in arenas
    ensures var a := arenas[b / 4096]; a.Small? ==> a.desc < 7 && b in Blocks(b / 4096, a.desc) && b !in lists[a.desc]
    ensures var a := arenas[b / 4096]; a.Big? ==> b == 4096 * (b / 4096) + HEADER
  {
    assert HandedOut(arenas, lists, b, live[b]);
  }

  /** A small block goes to the front of its free list. */
  lemma Pushed(arenas: Arenas, lists: Lists, live: map<nat, nat>, extents: Extents, d: nat, b: nat)
    requires Good(arenas, lists, live, extents) && Busy(arenas) && b in live && d < 7 && SmallAt(arenas, b / 4096, d)
    ensures var a := b / 4096;
            var arenas', lists' := arenas[a := Small(d, arenas[a].freeCnt + 1)], lists[d := [b] + lists[d]];
            && Good(arenas', lists', live - {b}, extents) && BusyBut(arenas', a)
            && arenas[a].freeCnt + 1 <= PerArena(d)
  {
    hide FirstBlocks, Blocks, PerArena, Size, ListsOk, Counted, LiveOk, Apart;
    LiveSmall(arenas, lists, live, b);
    var a := b / 4096;
    var arenas', lists' := arenas[a := Small(d, arenas[a].freeCnt + 1)], lists[d := [b] + lists[d]];
    PushLists(arenas, lists, d, b);
    PushLive(arenas, lists, live, d, b, arenas[a].freeCnt + 1, arenas', lists');
    FreeAtMost(arenas', lists', a);
  }

  // ----- Giving an arena back -----

  /** f' is the list f without the blocks of page a. */
  ghost predicate Without(f: seq<nat>, a: nat, f': seq<nat>) {
    NoDup(f') && forall b :: b in f' <==> b in f && b / 4096 != a
  }

  lemma DropLists(arenas: Arenas, lists: Lists, d: nat, a: nat, f': seq<nat>)
    requires ListsOk(arenas, lists) && Counted(arenas, lists) && d < 7 && SmallAt(arenas, a, d)
    requires Without(lists[d], a, f')
    ensures ListsOk(arenas - {a}, lists[d := f']) && Counted(arenas - {a}, lists[d := f'])
  {
    hide FirstBlocks, PerArena;
    var arenas', lists' := arenas - {a}, lists[d := f'];
    forall e | 0 <= e < 7
      ensures ListOk(arenas', e, lists'[e])
    {
      assert ListOk(arenas, e, lists[e]);
    }
    forall p | p in arenas' && arenas'[p].Small? && arenas'[p].desc < 7
      ensures arenas'[p].freeCnt == |FreeIn(lists'[arenas'[p].desc], p)|
    {
      assert FreeIn(f', p) == FreeIn(lists[d], p);
    }
  }

  lemma AllFree(arenas: Arenas, lists: Lists, d: nat, a: nat)
    requires ListsOk(arenas, lists) && Counted(arenas, lists) && d < 7 && SmallAt(arenas, a, d)
    requires arenas[a].freeCnt == PerArena(d)
    ensures FreeIn(lists[d], a) == Blocks(a, d)
  {
    hide FirstBlocks, PerArena;
    assert ListOk(arenas, d, lists[d]);
    BlockCount(a, d, PerArena(d));
    EqualCount(FreeIn(lists[d], a), Blocks(a, d));
  }

  lemma EqualCount(a: set<nat>, b: set<nat>)
    requires a <= b && |a| == |b|
    ensures a == b
  {
    assert b == a + (b - a);
  }

  lemma DropLive(arenas: Arenas, lists: Lists, live: map<nat, nat>, d: nat, a: nat, f': seq<nat>)
    requires LiveOk(arenas, lists, live) && d < 7 && SmallAt(arenas, a, d)
    requires FreeIn(lists[d], a) == Blocks(a, d) && Without(lists[d], a, f')
    ensures LiveOk(arenas - {a}, lists[d := f'], live) && forall b | b in live :: b / 4096 != a
  {
    hide FirstBlocks, PerArena, Size;
    var arenas', lists' := arenas - {a}, lists[d := f'];
    assert forall c | c in Blocks(a, d) :: c in FreeIn(lists[d], a);
    forall c | c in live
      ensures c / 4096 != a && HandedOut(arenas', lists', c, live[c])
    {
      assert HandedOut(arenas, lists, c, live[c]);
    }
    forall p, c | p in arenas' && arenas'[p].Small? && arenas'[p].desc < 7 && c in Blocks(p, arenas'[p].desc)
      ensures c in lists'[arenas'[p].desc] || c in live
    {
      var i := InBlocks(p, arenas'[p].desc, c);
    }
  }

  /** An arena without blocks in use goes back, its blocks leaving the free list. */
  lemma Dropped(arenas: Arenas, lists: Lists, live: map<nat, nat>, extents: Extents, d: nat, a: nat, f': seq<nat>)
    requires Good(arenas, lists, live, extents) && BusyBut(arenas, a) && d < 7 && SmallAt(arenas, a, d)
    requires arenas[a].freeCnt == PerArena(d) && Without(lists[d], a, f')
    ensures Good(arenas - {a}, lists[d := f'], live, extents - {a}) && Busy(arenas - {a})
    ensures forall b | b in live :: b / 4096 != a
  {
    hide FirstBlocks, PerArena, Size, ListsOk, Counted, LiveOk, Without, FreeIn;
    AllFree(arenas, lists, d, a);
    DropLists(arenas, lists, d, a, f');
    DropLive(arenas, lists, live, d, a, f');
  }

  lemma BigGoneLists(arenas: Arenas, lists: Lists, p: nat)
    requires ListsOk(arenas, lists) && Counted(arenas, lists) && p in arenas && arenas[p].Big?
    ensures ListsOk(arenas - {p}, lists) && Counted(arenas - {p}, lists)
  {
    hide FirstBlocks, Blocks;
    forall e | 0 <= e < 7
      ensures ListOk(arenas - {p}, e, lists[e])
    {
      assert ListOk(arenas, e, lists[e]);
    }
  }

  lemma BigGoneOne(arenas: Arenas, lists: Lists, live: map<nat, nat>, b: nat, c: nat)
    requires LiveOk(arenas, lists, live) && b in live && c in live && b != c
    requires b / 4096 in arenas && arenas[b / 4096].Big?
    ensures HandedOut(arenas - {b / 4096}, lists, c, live[c])
  {
    LiveSmall(arenas, lists, live, b);
    LiveSmall(arenas, lists, live, c);
    assert HandedOut(arenas, lists, c, live[c]);
  }

  lemma BigGoneLive(arenas: Arenas, lists: Lists, live: map<nat, nat>, b: nat, p: nat, arenas': Arenas, live': map<nat, nat>)
    requires LiveOk(arenas, lists, live) && b in live && p == b / 4096 && p in arenas && arenas[p].Big?
    requires arenas' == arenas - {p} && live' == live - {b}
    ensures LiveOk(arenas', lists, live')
  {
    hide FirstBlocks, Blocks, Size, HandedOut;
    forall c | c in live'
      ensures HandedOut(arenas', lists, c, live'[c])
    {
      BigGoneOne(arenas, lists, live, b, c);
    }
    forall q, c | q in arenas' && arenas'[q].Small? && arenas'[q].desc < 7 && c in Blocks(q, arenas'[q].desc)
      ensures c in lists[arenas'[q].desc] || c in live'
    {
      var i := InBlocks(q, arenas'[q].desc, c);
      assert c in lists[arenas[q].desc] || c in live;
    }
    forall q | q in arenas' && arenas'[q].Big?
      ensures 4096 * q + HEADER in live'
    {
      assert (4096 * q + HEADER) / 4096 == q;
    }
  }

  /** A big block goes back. */
  lemma BigGone(arenas: Arenas, lists: Lists, live: map<nat, nat>, extents: Extents, b: nat)
    requires Good(arenas, lists, live, extents) && Busy(arenas) && b in live
    requires b / 4096 in arenas && arenas[b / 4096].Big?
    ensures Good(arenas - {b / 4096}, lists, live - {b}, extents - {b / 4096}) && Busy(arenas - {b / 4096})
  {
    hide ListsOk, Counted, LiveOk, PerArena;
    BigGoneLists(arenas, lists, b / 4096);
    BigGoneLive(arenas, lists, live, b, b / 4096, arenas - {b / 4096}, live - {b});
  }
}

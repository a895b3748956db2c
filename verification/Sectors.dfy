/** Sectors as the inode code uses them: as zeroed data, as tables of 128 sector numbers
    stored little-endian, and as units of the free map (src/filesys/free-map.c). */
module Sectors {
  import opened Common
  import opened Cache

  const TABLE_SIZE: nat := 128

  type Word = U32                                    // a block_sector_t
  type Table = t: seq<Word> | |t| == TABLE_SIZE witness seq(TABLE_SIZE, _ => 0)

  // ----- Tables of sector numbers -----

  function WordAt(b: Block, i: nat): (w: Word)
    requires i < TABLE_SIZE
  {
    Join(b[4 * i], b[4 * i + 1], b[4 * i + 2], b[4 * i + 3])
  }

  /** A sector read into an array of block_sector_t. */
  function Words(b: Block): (t: Table) {
    seq(TABLE_SIZE, i requires 0 <= i < TABLE_SIZE => WordAt(b, i))
  }

  /** An array of block_sector_t written to a sector. */
  function FromWords(t: Table): (b: Block) {
    seq(SECTOR_SIZE, j requires 0 <= j < SECTOR_SIZE => ByteOf(t[j / 4], j % 4))
  }

  lemma TableRoundTrip(t: Table)
    ensures Words(FromWords(t)) == t
  {
    hide ByteOf;
    var b := FromWords(t);
    forall i | 0 <= i < TABLE_SIZE
      ensures WordAt(b, i) == t[i]
    {
      forall k | 0 <= k < 4
        ensures b[4 * i + k] == ByteOf(t[i], k)
      {
        assert (4 * i + k) / 4 == i && (4 * i + k) % 4 == k;
      }
      SplitWord(t[i]);
      assert b[4 * i + 0] == ByteOf(t[i], 0);
      assert b[4 * i + 1] == ByteOf(t[i], 1) && b[4 * i + 2] == ByteOf(t[i], 2) && b[4 * i + 3] == ByteOf(t[i], 3);
    }
  }

  // ----- The device and the free map -----

  /** The device and the map of sectors in use, one bit per sector. Sector numbers are 32 bits
      wide, so there are at most 2^32 of them. */
  datatype RawDev = Dev(disk: seq<Block>, used: seq<bool>)
  type Dev = d: RawDev | |d.disk| == |d.used| <= 0x1_0000_0000 witness Dev([], [])

  function Get(disk: seq<Block>, s: nat): (b: Block) {
    if s < |disk| then disk[s] else ZeroBlock()
  }

  function Put(disk: seq<Block>, s: nat, b: Block): (r: seq<Block>)
    ensures |r| == |disk|
  {
    if s < |disk| then disk[s := b] else disk
  }

  /** bitmap_scan for one clear bit: the least free sector, or the size if there is none. */
  function FirstFree(used: seq<bool>, from: nat): (s: nat)
    requires from <= |used|
    ensures from <= s <= |used|
    ensures s < |used| ==> !used[s]
    ensures forall i | from <= i < s :: used[i]
    decreases |used| - from
  {
    if from == |used| || !used[from] then from else FirstFree(used, from + 1)
  }

  ghost function FreeSet(used: seq<bool>): (f: set<nat>) {
    set s: nat | s < |used| && !used[s]
  }

  ghost function FreeCount(used: seq<bool>): (n: nat) {
    |FreeSet(used)|
  }

  lemma FreeCountSet(used: seq<bool>, s: nat)
    requires s < |used| && !used[s]
    ensures FreeCount(used[s := true]) == FreeCount(used) - 1
  {
    assert FreeSet(used) == FreeSet(used[s := true]) + {s};
  }

  lemma SomeFree(used: seq<bool>)
    requires FreeCount(used) > 0
    ensures FirstFree(used, 0) < |used|
  {
    var s :| s in FreeSet(used);
  }

  datatype Allocated = Allocated(dev: Dev, sector: Word)
  datatype Filled = Filled(dev: Dev, table: seq<Word>)

  /** free_map_allocate (1, &x) : on failure x keeps its value. */
  function Allocate(dev: Dev, x: Word): (r: Allocated) {
    var s := FirstFree(dev.used, 0);
    if s < |dev.used| then Allocated(Dev(dev.disk, dev.used[s := true]), s) else Allocated(dev, x)
  }

  // ----- First fit -----

  /** The next n sectors first fit takes, in order; fewer if the device runs out of them. */
  function Take(used: seq<bool>, n: nat): (t: seq<Word>)
    requires |used| <= 0x1_0000_0000
    decreases n
  {
    var s := FirstFree(used, 0);
    if n == 0 || s == |used| then [] else [s] + Take(used[s := true], n - 1)
  }

  function Mark(used: seq<bool>, f: seq<nat>): (r: seq<bool>)
    ensures |r| == |used|
    ensures forall s | 0 <= s < |used| :: r[s] == (used[s] || s in f)
  {
    seq(|used|, s requires 0 <= s < |used| => used[s] || s in f)
  }

  /** n allocations were asked for: the next sectors of first fit were taken, as many as there are. */
  ghost predicate TakenUp(used: seq<bool>, n: int, r: seq<bool>) {
    n >= 0 && |used| <= 0x1_0000_0000 && r == Mark(used, Take(used, n))
  }

  lemma TakenUpMore(a: seq<bool>, m: nat, b: seq<bool>, n: nat, c: seq<bool>)
    requires TakenUp(a, m, b) && TakenUp(b, n, c)
    ensures TakenUp(a, m + n, c)
  {
    TakeMore(a, m, n);
    MarkTwice(a, Take(a, m), Take(b, n));
  }

  /** If there are not as many, none is left. */
  lemma TakenUpAll(used: seq<bool>, n: nat, r: seq<bool>)
    requires TakenUp(used, n, r) && FreeCount(used) <= n
    ensures FreeCount(r) == 0 && forall s | 0 <= s < |r| :: r[s]
  {
    forall s | 0 <= s < |used|
      ensures r[s]
    {
      if !used[s] {
        FewerBelow(used, s);
        TakeIsLeast(used, n, s);
      }
    }
    assert FreeSet(r) == {};
  }

  lemma FewerBelow(used: seq<bool>, s: nat)
    requires s < |used| && !used[s]
    ensures |FreeBelow(used, s)| < FreeCount(used)
  {
    var below, all := FreeBelow(used, s), FreeSet(used);
    assert s in all && s !in below && below <= all;
    assert below <= all - {s};
    SubsetCount(below, all - {s});
  }

  lemma {:induction false} SubsetCount(a: set<nat>, b: set<nat>)
    requires a <= b
    ensures |a| <= |b|
    decreases |b|
  {
    assert b == a + (b - a);
  }

  /** Exactly the next n sectors of first fit were taken. */
  ghost predicate Took(used: seq<bool>, n: nat, r: seq<bool>) {
    |used| <= 0x1_0000_0000 && |Take(used, n)| == n && r == Mark(used, Take(used, n))
  }

  lemma MarkNone(used: seq<bool>)
    ensures Mark(used, []) == used
  {
  }

  lemma MarkOne(used: seq<bool>, s: Word, rest: seq<Word>)
    requires s < |used|
    ensures Mark(used[s := true], rest) == Mark(used, [s] + rest)
  {
    var f := [s] + rest;
    assert forall x :: x in f <==> x == s || x in rest;
  }

  /** Taking goes on where it stopped. */
  lemma {:induction false} TakeMore(used: seq<bool>, a: nat, b: nat)
    requires |used| <= 0x1_0000_0000
    ensures Take(used, a + b) == Take(used, a) + Take(Mark(used, Take(used, a)), b)
    decreases a
  {
    hide Mark, FirstFree;
    var s := FirstFree(used, 0);
    if a == 0 || s == |used| {
      MarkNone(used);
    } else {
      var rest := Take(used[s := true], a - 1);
      TakeMore(used[s := true], a - 1, b);
      MarkOne(used, s, rest);
      assert Take(used, a + b) == [s] + Take(used[s := true], a - 1 + b);
    }
  }

  lemma MarkTwice(used: seq<bool>, f: seq<Word>, g: seq<Word>)
    ensures Mark(Mark(used, f), g) == Mark(used, f + g)
  {
  }

  lemma TookMore(a: seq<bool>, m: nat, b: seq<bool>, n: nat, c: seq<bool>)
    requires Took(a, m, b) && Took(b, n, c)
    ensures Took(a, m + n, c) && Take(a, m + n) == Take(a, m) + Take(b, n)
  {
    TakeMore(a, m, n);
    MarkTwice(a, Take(a, m), Take(b, n));
  }

  lemma TookNone(a: seq<bool>)
    requires |a| <= 0x1_0000_0000
    ensures Took(a, 0, a)
  {
    MarkNone(a);
  }

  lemma TookOne(a: seq<bool>)
    requires |a| <= 0x1_0000_0000 && FirstFree(a, 0) < |a|
    ensures Took(a, 1, a[FirstFree(a, 0) := true]) && Take(a, 1) == [FirstFree(a, 0)]
  {
    var s := FirstFree(a, 0);
    assert Take(a[s := true], 0) == [];
    MarkNone(a[s := true]);
    MarkOne(a, s, []);
  }

  /** The free sectors before s. */
  ghost function FreeBelow(used: seq<bool>, s: nat): (f: set<nat>) {
    set x: nat | x < s && x < |used| && !used[x]
  }

  lemma FreeBelowTaken(used: seq<bool>, m: nat, s: nat)
    requires m == FirstFree(used, 0) < |used|
    ensures s <= m ==> FreeBelow(used, s) == {}
    ensures s > m ==> FreeBelow(used, s) == FreeBelow(used[m := true], s) + {m}
  {
  }

  /** First fit takes the n least free sectors, in ascending order: the j-th one has j free
      sectors before it. */
  lemma {:induction false} TakeIsLeast(used: seq<bool>, n: nat, s: nat)
    requires |used| <= 0x1_0000_0000
    ensures s in Take(used, n) <==> s < |used| && !used[s] && |FreeBelow(used, s)| < n
    ensures forall j | 0 <= j < |Take(used, n)| && Take(used, n)[j] == s :: |FreeBelow(used, s)| == j
    decreases n
  {
    var m := FirstFree(used, 0);
    if n > 0 && m < |used| {
      var rest := Take(used[m := true], n - 1);
      TakeIsLeast(used[m := true], n - 1, s);
      FreeBelowTaken(used, m, s);
      assert Take(used, n) == [m] + rest;
      assert s in Take(used, n) <==> s == m || s in rest;
    }
  }

  // ----- Filling a table with zeroed sectors -----

  /** The loop the inode code uses for every table: allocate a sector into each of the n entries
      from i on and zero it on the device, whether or not the allocation succeeded. */
  function Fill(dev: Dev, table: seq<Word>, i: nat, n: nat): (r: Filled)
    requires i + n <= |table|
    ensures |r.dev.disk| == |dev.disk| && |r.table| == |table|
    decreases n
  {
    if n == 0 then Filled(dev, table)
    else
      var a := Allocate(dev, table[i]);
      Fill(Dev(Put(a.dev.disk, a.sector, ZeroBlock()), a.dev.used), table[i := a.sector], i + 1, n - 1)
  }

  function Zeroed(disk: seq<Block>, f: seq<nat>): (r: seq<Block>)
    ensures |r| == |disk|
    ensures forall s | 0 <= s < |disk| :: r[s] == if s in f then ZeroBlock() else disk[s]
  {
    seq(|disk|, s requires 0 <= s < |disk| => if s in f then ZeroBlock() else disk[s])
  }

  /** `f` is a list of distinct free sectors. */
  ghost predicate Fresh(dev: Dev, f: seq<Word>) {
    NoDup(f) && forall s | s in f :: s < |dev.used| && !dev.used[s]
  }

  lemma ConsFresh(disk: seq<Block>, used: seq<bool>, s: Word, rest: seq<Word>)
    requires s < |disk| == |used| && !used[s]
    ensures Zeroed(disk[s := ZeroBlock()], rest) == Zeroed(disk, [s] + rest)
    ensures Mark(used[s := true], rest) == Mark(used, [s] + rest)
  {
    var f := [s] + rest;
    assert forall x :: x in f <==> x == s || x in rest;
    MarkOne(used, s, rest);
  }

  lemma ConsTable(table: seq<Word>, i: nat, s: Word, rest: seq<Word>)
    requires i + 1 + |rest| <= |table|
    ensures table[i := s][..i + 1] + rest + table[i := s][i + 1 + |rest|..]
            == table[..i] + ([s] + rest) + table[i + 1 + |rest|..]
  {
    assert table[i := s][..i + 1] == table[..i] + [s];
  }

  /** Fill takes the sectors `f`, all of them distinct, previously free and now zeroed. */
  ghost predicate FillGives(dev: Dev, table: seq<Word>, i: nat, n: nat, f: seq<Word>) {
    && i + n <= |table| && |f| == n && Fresh(dev, f)
    && Fill(dev, table, i, n) == Filled(Dev(Zeroed(dev.disk, f), Mark(dev.used, f)), table[..i] + f + table[i + n..])
  }

  lemma FillNone(dev: Dev, table: seq<Word>, i: nat)
    requires i <= |table|
    ensures FillGives(dev, table, i, 0, [])
    ensures Mark(dev.used, []) == dev.used
  {
    assert Mark(dev.used, []) == dev.used && Zeroed(dev.disk, []) == dev.disk;
    assert table == table[..i] + [] + table[i..];
  }

  lemma FillOne(dev: Dev, table: seq<Word>, i: nat, n: nat, s: Word, rest: seq<Word>)
    requires n > 0 && i + n <= |table| && s < |dev.used| && s == FirstFree(dev.used, 0)
    requires FillGives(Dev(dev.disk[s := ZeroBlock()], dev.used[s := true]), table[i := s], i + 1, n - 1, rest)
    ensures FillGives(dev, table, i, n, [s] + rest)
  {
    var d: Dev := Dev(dev.disk[s := ZeroBlock()], dev.used[s := true]);
    assert Fill(dev, table, i, n) == Fill(d, table[i := s], i + 1, n - 1);
    FreshCons(dev, d, s, rest);
    ConsFresh(dev.disk, dev.used, s, rest);
    ConsTable(table, i, s, rest);
  }

  lemma FreshCons(dev: Dev, d: Dev, s: Word, rest: seq<Word>)
    requires s < |dev.used| && !dev.used[s] && d.used == dev.used[s := true] && Fresh(d, rest)
    ensures Fresh(dev, [s] + rest)
  {
    ConsNoDup(s, rest);
  }

  /** r is the device and the table after filling n entries from i on, f being the sectors found: the
      first entries get those, the others keep their values, and what any of them names is zeroed. */
  ghost predicate FilledWith(dev: Dev, table: seq<Word>, i: nat, n: nat, f: seq<Word>, r: Filled) {
    && i + n <= |table| && |f| <= n && r.dev.used == Mark(dev.used, f)
    && r.table == table[..i] + f + table[i + |f|..]
    && r.dev.disk == Zeroed(dev.disk, f + table[i + |f|..i + n])
  }

  lemma FilledNext(dev: Dev, table: seq<Word>, i: nat, n: nat, s: Word, rest: seq<Word>, r: Filled, d: Dev)
    requires n > 0 && i + n <= |table| && s < |dev.used| && d == Dev(Put(dev.disk, s, ZeroBlock()), dev.used[s := true])
    requires FilledWith(d, table[i := s], i + 1, n - 1, rest, r)
    ensures FilledWith(dev, table, i, n, [s] + rest, r)
  {
    hide Mark, Zeroed;
    var f, tail := [s] + rest, table[i + 1 + |rest|..i + n];
    MarkOne(dev.used, s, rest);
    ConsTable(table, i, s, rest);
    assert table[i := s][i + 1 + |rest|..i + n] == tail;
    ZeroedCons(dev.disk, s, rest + tail);
    assert [s] + (rest + tail) == f + table[i + |f|..i + n];
  }

  lemma FilledStuck(dev: Dev, table: seq<Word>, i: nat, n: nat, r: Filled, d: Dev)
    requires n > 0 && i + n <= |table| && d == Dev(Put(dev.disk, table[i], ZeroBlock()), dev.used)
    requires FilledWith(d, table, i + 1, n - 1, [], r)
    ensures FilledWith(dev, table, i, n, [], r)
  {
    hide Mark, Zeroed, FilledWith;
    FilledWithNone(d, table, i + 1, n - 1, r);
    FilledWithNone(dev, table, i, n, r);
    FirstOf(table, i, n);
    ZeroedCons(dev.disk, table[i], table[i + 1..i + n]);
    assert i + 1 + (n - 1) == i + n;
  }

  lemma FilledWithNone(dev: Dev, table: seq<Word>, i: nat, n: nat, r: Filled)
    requires i + n <= |table|
    ensures FilledWith(dev, table, i, n, [], r)
            <==> r.dev.used == Mark(dev.used, []) && r.table == table && r.dev.disk == Zeroed(dev.disk, table[i..i + n])
  {
    hide Mark, Zeroed;
    NoneBetween(table, i);
    NoneBefore(table[i..i + n]);
  }

  lemma NoneBetween(table: seq<Word>, i: nat)
    requires i <= |table|
    ensures var none: seq<Word> := []; table[..i] + none + table[i..] == table
  {
  }

  lemma NoneBefore(t: seq<Word>)
    ensures var none: seq<Word> := []; none + t == t
  {
  }

  lemma FirstOf(table: seq<Word>, i: nat, n: nat)
    requires 0 < n && i + n <= |table|
    ensures [table[i]] + table[i + 1..i + n] == table[i..i + n]
  {
  }

  /** Fill, whether or not there are enough free sectors. */
  lemma {:induction false} FillExactly(dev: Dev, table: seq<Word>, i: nat, n: nat)
    requires i + n <= |table|
    ensures FilledWith(dev, table, i, n, Take(dev.used, n), Fill(dev, table, i, n))
    ensures TakenUp(dev.used, n, Fill(dev, table, i, n).dev.used)
    decreases n
  {
    hide Mark, FirstFree, Zeroed, FilledWith;
    var s := FirstFree(dev.used, 0);
    if n == 0 {
      FilledNothing(dev, table, i);
    } else if s < |dev.used| {
      var d: Dev := Dev(Put(dev.disk, s, ZeroBlock()), dev.used[s := true]);
      FillExactly(d, table[i := s], i + 1, n - 1);
      FilledNext(dev, table, i, n, s, Take(d.used, n - 1), Fill(dev, table, i, n), d);
    } else {
      var d: Dev := Dev(Put(dev.disk, table[i], ZeroBlock()), dev.used);
      assert table[i := table[i]] == table;
      FillExactly(d, table, i + 1, n - 1);
      FilledStuck(dev, table, i, n, Fill(dev, table, i, n), d);
    }
    FilledUsed(dev, table, i, n, Take(dev.used, n), Fill(dev, table, i, n));
  }

  lemma FilledUsed(dev: Dev, table: seq<Word>, i: nat, n: nat, f: seq<Word>, r: Filled)
    requires FilledWith(dev, table, i, n, f, r)
    ensures r.dev.used == Mark(dev.used, f)
  {
  }

  lemma FilledNothing(dev: Dev, table: seq<Word>, i: nat)
    requires i <= |table|
    ensures FilledWith(dev, table, i, 0, [], Filled(dev, table))
  {
    MarkNone(dev.used);
    ZeroedNone(dev.disk);
    var none: seq<Word> := [];
    assert table == table[..i] + none + table[i..] && none + table[i..i] == none;
  }

  lemma ZeroedNone(disk: seq<Block>)
    ensures Zeroed(disk, []) == disk
  {
  }

  lemma ZeroedCons(disk: seq<Block>, s: Word, rest: seq<Word>)
    ensures Zeroed(Put(disk, s, ZeroBlock()), rest) == Zeroed(disk, [s] + rest)
  {
    var f := [s] + rest;
    assert forall x :: x in f <==> x == s || x in rest;
  }

  /** With enough free sectors every allocation in Fill succeeds. */
  lemma {:induction false} FillSpec(dev: Dev, table: seq<Word>, i: nat, n: nat) returns (f: seq<Word>)
    requires i + n <= |table| && FreeCount(dev.used) >= n
    ensures FillGives(dev, table, i, n, f) && f == Take(dev.used, n)
    ensures FreeCount(Mark(dev.used, f)) == FreeCount(dev.used) - n
    decreases n
  {
    hide FillGives, Fill, Mark, Fresh, FreeCount, FirstFree;
    if n == 0 {
      f := [];
      FillNone(dev, table, i);
    } else {
      SomeFree(dev.used);
      var s := FirstFree(dev.used, 0);
      FreeCountSet(dev.used, s);
      var d: Dev := Dev(dev.disk[s := ZeroBlock()], dev.used[s := true]);
      var rest := FillSpec(d, table[i := s], i + 1, n - 1);
      f := [s] + rest;
      FillOne(dev, table, i, n, s, rest);
      ConsFresh(dev.disk, dev.used, s, rest);
    }
  }
}

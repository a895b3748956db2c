/** What inode_grow does to a file's index, to the free map and to the device. */
module Growth {
  import opened Common
  import opened Cache
  import opened Sectors
  import opened Inode
  import opened Plans

  // ----- Changes to the device -----

  /** From `dev` to `r` exactly the free sectors `taken` were taken, and only they and the
      tables `tables` were written. */
  ghost predicate Changes(dev: Dev, r: Dev, taken: set<nat>, tables: set<nat>) {
    && |r.disk| == |dev.disk|
    && (forall s | s in taken :: s < |dev.used| && !dev.used[s])
    && (forall s | 0 <= s < |dev.used| :: r.used[s] == (dev.used[s] || s in taken))
    && (forall s | 0 <= s < |dev.disk| && s !in taken && s !in tables :: r.disk[s] == dev.disk[s])
  }

  lemma ChangesCompose(a: Dev, b: Dev, c: Dev, f1: set<nat>, t1: set<nat>, f2: set<nat>, t2: set<nat>)
    requires Changes(a, b, f1, t1) && Changes(b, c, f2, t2)
    ensures Changes(a, c, f1 + f2, t1 + t2) && f1 !! f2
  {
  }

  ghost function ToSet(f: seq<Word>): (r: set<nat>) {
    set s | s in f
  }

  /** What one call of Fill means. */
  lemma FillChanges(dev: Dev, table: seq<Word>, i: nat, n: nat, f: seq<Word>)
    requires FillGives(dev, table, i, n, f)
    ensures var r := Fill(dev, table, i, n);
            && Changes(dev, r.dev, ToSet(f), {})
            && (forall s | s in f :: s < |dev.disk| && r.dev.disk[s] == ZeroBlock())
            && r.table == table[..i] + f + table[i + n..]
  {
  }

  lemma AllocateChanges(dev: Dev, x: Word)
    requires FreeCount(dev.used) > 0
    ensures var a := Allocate(dev, x);
            && Changes(dev, a.dev, {a.sector}, {})
            && a.sector < |dev.used| && !dev.used[a.sector]
            && a.sector == FirstFree(dev.used, 0) && a.dev.used == dev.used[a.sector := true]
            && FreeCount(a.dev.used) == FreeCount(dev.used) - 1
  {
    SomeFree(dev.used);
    FreeCountSet(dev.used, FirstFree(dev.used, 0));
  }

  /** Opening, filling and writing back a table, which is new if it had no entries. */
  ghost predicate TableGrown(dev: Dev, isNew: bool, t: Table, i: nat, f: seq<Word>, r: Opened) {
    && Fresh(dev, f) && i + |f| <= TABLE_SIZE && r.sector < |dev.disk|
    && (isNew ==> !dev.used[r.sector] && r.sector !in f)
    && Changes(dev, r.dev, if isNew then ToSet(f) + {r.sector} else ToSet(f), {r.sector})
    && r.table == t[..i] + f + t[i + |f|..]
    && Words(r.dev.disk[r.sector]) == r.table
    && (r.sector !in f ==> forall s | s in f :: s < |dev.disk| && r.dev.disk[s] == ZeroBlock())
    && FreeCount(r.dev.used) == FreeCount(dev.used) - |f| - if isNew then 1 else 0
  }

  lemma ExtendNew(dev: Dev, sector: Word, junk: Table, i: nat, m: nat) returns (f: seq<Word>)
    requires i + m <= TABLE_SIZE && FreeCount(dev.used) >= m + 1
    ensures |f| == m && TableGrown(dev, true, junk, i, f, ExtendTable(dev, 0, sector, junk, i, m))
    ensures var o := ExtendTable(dev, 0, sector, junk, i, m);
            [o.sector] + f == Take(dev.used, m + 1) && Took(dev.used, m + 1, o.dev.used)
  {
    hide Words, FromWords, Fresh, Changes, TableGrown, ToSet, FreeCount, Take, Took, Mark, Fill, FirstFree, Zeroed;
    var a := Allocate(dev, sector);
    AllocateChanges(dev, sector);
    f := FillSpec(a.dev, junk, i, m);
    FillChanges(a.dev, junk, i, m, f);
    var fill := Fill(a.dev, junk, i, m);
    assert ExtendTable(dev, 0, sector, junk, i, m)
           == Opened(Dev(Put(fill.dev.disk, a.sector, FromWords(fill.table)), fill.dev.used), a.sector, fill.table);
    NewWritten(dev, a.dev, a.sector, junk, i, f, fill.dev, fill.table);
    NewTook(dev.used, a.sector, f);
  }

  lemma NewTook(used: seq<bool>, s: Word, f: seq<Word>)
    requires |used| <= 0x1_0000_0000 && s < |used| && s == FirstFree(used, 0) && f == Take(used[s := true], |f|)
    ensures [s] + f == Take(used, |f| + 1) && Took(used, |f| + 1, Mark(used[s := true], f))
  {
    MarkOne(used, s, f);
  }

  lemma NewWritten(dev: Dev, mid: Dev, sector: Word, t: Table, i: nat, f: seq<Word>, filled: Dev, table: Table)
    requires Changes(dev, mid, {sector}, {}) && sector < |dev.disk| && Fresh(mid, f) && i + |f| <= TABLE_SIZE
    requires Changes(mid, filled, ToSet(f), {}) && table == t[..i] + f + t[i + |f|..]
    requires forall s | s in f :: s < |mid.disk| && filled.disk[s] == ZeroBlock()
    requires FreeCount(filled.used) == FreeCount(dev.used) - |f| - 1
    ensures TableGrown(dev, true, t, i, f, Opened(Dev(Put(filled.disk, sector, FromWords(table)), filled.used), sector, table))
  {
    TableRoundTrip(table);
    ChangesCompose(dev, mid, filled, {sector}, {}, ToSet(f), {});
    assert sector in {sector} && sector !in ToSet(f);
    assert {sector} + ToSet(f) == ToSet(f) + {sector};
  }

  lemma ExtendOld(dev: Dev, entries: nat, sector: Word, junk: Table, i: nat, m: nat) returns (f: seq<Word>)
    requires i + m <= TABLE_SIZE && FreeCount(dev.used) >= m && entries > 0 && sector < |dev.disk|
    ensures |f| == m
    ensures TableGrown(dev, false, Words(dev.disk[sector]), i, f, ExtendTable(dev, entries, sector, junk, i, m))
    ensures f == Take(dev.used, m) && Took(dev.used, m, ExtendTable(dev, entries, sector, junk, i, m).dev.used)
  {
    hide Words, FromWords, Fresh, Changes, TableGrown, ToSet, FreeCount, Take;
    var t := Words(dev.disk[sector]);
    f := FillSpec(dev, t, i, m);
    var fill := Fill(dev, t, i, m);
    assert ExtendTable(dev, entries, sector, junk, i, m)
           == Opened(Dev(Put(fill.dev.disk, sector, FromWords(fill.table)), fill.dev.used), sector, fill.table);
    FillChanges(dev, t, i, m, f);
    OldWritten(dev, sector, t, i, f, fill.dev, fill.table);
  }

  lemma OldWritten(dev: Dev, sector: Word, t: Table, i: nat, f: seq<Word>, filled: Dev, table: Table)
    requires Fresh(dev, f) && i + |f| <= TABLE_SIZE && sector < |dev.disk|
    requires Changes(dev, filled, ToSet(f), {}) && table == t[..i] + f + t[i + |f|..]
    requires forall s | s in f :: s < |dev.disk| && filled.disk[s] == ZeroBlock()
    requires FreeCount(filled.used) == FreeCount(dev.used) - |f|
    ensures TableGrown(dev, false, t, i, f, Opened(Dev(Put(filled.disk, sector, FromWords(table)), filled.used), sector, table))
  {
    TableRoundTrip(table);
  }

  // ----- Growing the direct blocks -----

  lemma AppendFresh(dev: Dev, x: seq<Word>, f: seq<Word>)
    requires NoDup(x) && Fresh(dev, f) && InUse(dev.used, ToSet(x))
    ensures NoDup(x + f) && ToSet(x + f) == ToSet(x) + ToSet(f) && ToSet(x) !! ToSet(f)
  {
    assert forall i | 0 <= i < |x| :: x[i] in ToSet(x);
    assert forall i | 0 <= i < |f| :: f[i] in ToSet(f);
    assert forall i | 0 <= i < |x| + |f| :: (x + f)[i] == if i < |x| then x[i] else f[i - |x|];
  }

  lemma DirectRep(d: InodeDisk, disk: seq<Block>, x: Index, f: seq<Word>, r: InodeDisk, disk': seq<Block>)
    requires Rep(d, disk, x) && |x.data| + |f| <= DIRECT && |disk'| == |disk|
    requires NoDup(x.data + f) && forall s | s in f :: s < |disk|
    requires r.blocks == d.blocks[..d.direct] + f + d.blocks[d.direct + |f|..]
    requires r.direct == d.direct + |f| && r.indirect == d.indirect && r.dbl == d.dbl
    ensures Rep(r, disk', x.(data := x.data + f))
    ensures Owned(x.(data := x.data + f)) == Owned(x) + ToSet(f)
  {
    var y := x.(data := x.data + f);
    assert TableSet(y) == {} == TableSet(x);
    assert DataSet(y) == DataSet(x) + ToSet(f);
    assert forall s | s in Owned(y) :: s in Owned(x) || s in f;
    forall k | 0 <= k < |y.data|
      ensures Maps(r.blocks, Words(Get(disk', y.ind)), y.groups, disk', k, y.data[k])
    {
      assert k < |x.data| ==> Maps(d.blocks, Words(Get(disk, x.ind)), x.groups, disk, k, x.data[k]);
    }
  }

  lemma DirectSpec(dev: Dev, d: InodeDisk, x: Index, m: nat) returns (f: seq<Word>)
    requires Rep(d, dev.disk, x) && InUse(dev.used, Owned(x))
    requires |x.data| + m <= DIRECT && FreeCount(dev.used) >= m
    ensures var r := GrowDirect(dev, d, m); var y := x.(data := x.data + f);
            && |f| == m
            && Rep(r.d, r.dev.disk, y) && Owned(y) == Owned(x) + ToSet(f)
            && Changes(dev, r.dev, ToSet(f), {})
            && (forall s | s in f :: s < |r.dev.disk| && r.dev.disk[s] == ZeroBlock())
            && FreeCount(r.dev.used) == FreeCount(dev.used) - m
            && f == Take(dev.used, m) && Took(dev.used, m, r.dev.used)
  {
    hide Take;
    f := FillSpec(dev, d.blocks, d.direct, m);
    FillChanges(dev, d.blocks, d.direct, m, f);
    AppendFresh(dev, x.data, f);
    var r := GrowDirect(dev, d, m);
    DirectRep(d, dev.disk, x, f, r.d, r.dev.disk);
  }

  // ----- Growing the indirect block -----

  /** The inode with k more indirect entries, its indirect table being in sector s0. */
  ghost predicate Reindexed(d: InodeDisk, s0: Word, k: nat, r: InodeDisk) {
    r.blocks == d.blocks[13 := s0] && r.direct == d.direct && r.indirect == d.indirect + k && r.dbl == d.dbl
  }

  /** The tables after the indirect block has been rewritten. */
  ghost predicate IndirectDone(d: InodeDisk, disk: seq<Block>, x: Index, f: seq<Word>, s0: Word, t: Table,
                               r: InodeDisk, disk': seq<Block>) {
    var n := |x.data|;
    && DIRECT <= n && DIRECT < n + |f| && (f == [] || n + |f| <= SINGLE)
    && |disk'| == |disk| && s0 < |disk| && (forall s | s in f :: s < |disk|)
    && d.indirect + |f| <= TABLE_SIZE && (n > SINGLE ==> x.dbl < |disk|)
    && (n > DIRECT ==> s0 == x.ind && t == Words(disk[x.ind]))
    && Words(disk'[s0]) == t[..d.indirect] + f + t[d.indirect + |f|..]
    && (forall s | s in x.groups :: s < |disk| && disk'[s] == disk[s])
    && (n > SINGLE ==> disk'[x.dbl] == disk[x.dbl])
    && Reindexed(d, s0, |f|, r)
  }

  lemma IndirectMaps(d: InodeDisk, disk: seq<Block>, x: Index, f: seq<Word>, s0: Word, t: Table,
                     r: InodeDisk, disk': seq<Block>, k: nat)
    requires Rep(d, disk, x)
    requires IndirectDone(d, disk, x, f, s0, t, r, disk') && k < |x.data + f|
    ensures Maps(r.blocks, Words(disk'[s0]), x.groups, disk', k, (x.data + f)[k])
  {
    if k < |x.data| { assert Maps(d.blocks, Words(Get(disk, x.ind)), x.groups, disk, k, x.data[k]); }
  }

  lemma IndirectRep(d: InodeDisk, disk: seq<Block>, x: Index, f: seq<Word>, s0: Word, t: Table,
                    r: InodeDisk, disk': seq<Block>)
    requires Rep(d, disk, x)
    requires IndirectDone(d, disk, x, f, s0, t, r, disk')
    requires Separated(Index(x.data + f, s0, x.dbl, x.groups))
    ensures Rep(r, disk', Index(x.data + f, s0, x.dbl, x.groups))
  {
    var y := Index(x.data + f, s0, x.dbl, x.groups);
    assert Owned(y) == Owned(x) + ToSet(f) + {s0} by { assert DataSet(y) == DataSet(x) + ToSet(f); }
    forall k | 0 <= k < |y.data|
      ensures Maps(r.blocks, Words(Get(disk', y.ind)), y.groups, disk', k, y.data[k])
    {
      IndirectMaps(d, disk, x, f, s0, t, r, disk', k);
    }
  }

  /** The sectors of a file with some fresh ones added stay separated. */
  lemma IndirectSeparated(dev: Dev, x: Index, f: seq<Word>, s0: Word)
    requires Separated(x) && InUse(dev.used, Owned(x)) && Fresh(dev, f)
    requires |x.data| >= DIRECT && (f == [] || |x.data| + |f| <= SINGLE) && |x.data| + |f| > DIRECT
    requires |x.groups| == GroupCount(|x.data|)
    requires if |x.data| == DIRECT then s0 < |dev.used| && !dev.used[s0] && s0 !in f else s0 == x.ind
    ensures var y := Index(x.data + f, s0, x.dbl, x.groups);
            Separated(y) && Owned(y) == Owned(x) + if |x.data| == DIRECT then ToSet(f) + {s0} else ToSet(f)
  {
    var y := Index(x.data + f, s0, x.dbl, x.groups);
    assert InUse(dev.used, ToSet(x.data)) by { assert ToSet(x.data) == DataSet(x); }
    AppendFresh(dev, x.data, f);
    assert DataSet(y) == DataSet(x) + ToSet(f);
    assert |x.data| == DIRECT ==> TableSet(x) == {};
    assert TableSet(y) == TableSet(x) + {s0};
    assert InUse(dev.used, TableSet(x));
  }

  lemma CountsOf(d: InodeDisk, disk: seq<Block>, x: Index)
    requires Rep(d, disk, x)
    ensures Counts(d, |x.data|) && (|x.data| > DIRECT ==> d.blocks[13] == x.ind)
    ensures Separated(x) && |x.groups| == GroupCount(|x.data|) && (|x.data| > DIRECT ==> x.ind < |disk|)
  {
    assert |x.data| > DIRECT ==> x.ind in Owned(x);
  }

  /** The indirect table of a file with exactly 13 sectors is new. */
  lemma IndirectNew(dev: Dev, d: InodeDisk, x: Index, m: nat, junk: Table) returns (f: seq<Word>, s0: Word)
    requires Rep(d, dev.disk, x) && InUse(dev.used, Owned(x)) && |x.data| == DIRECT
    requires 0 < m <= TABLE_SIZE && FreeCount(dev.used) >= m + 1
    ensures IndirectGrown(dev, x, ToSet(f) + {s0}, Index(x.data + f, s0, x.dbl, x.groups), GrowIndirect(dev, d, m, junk))
    ensures |f| == m && FreeCount(GrowIndirect(dev, d, m, junk).dev.used) == FreeCount(dev.used) - m - 1
    ensures [s0] + f == Take(dev.used, m + 1) && Took(dev.used, m + 1, GrowIndirect(dev, d, m, junk).dev.used)
  {
    hide Rep, Owned, Words, FromWords, FreeCount, InUse, Take, Took;
    CountsOf(d, dev.disk, x);
    f := ExtendNew(dev, d.blocks[13], junk, 0, m);
    var o := ExtendTable(dev, 0, d.blocks[13], junk, 0, m);
    s0 := o.sector;
    IndirectFinish(dev, d, x, true, junk, f, o, GrowIndirect(dev, d, m, junk).d);
    AddedZero(x.data, f, o.dev);
  }

  /** Otherwise it is read back and extended. */
  lemma IndirectOld(dev: Dev, d: InodeDisk, x: Index, m: nat, junk: Table) returns (f: seq<Word>)
    requires Rep(d, dev.disk, x) && InUse(dev.used, Owned(x)) && |x.data| > DIRECT
    requires m <= TABLE_SIZE - d.indirect && FreeCount(dev.used) >= m
    ensures IndirectGrown(dev, x, ToSet(f), x.(data := x.data + f), GrowIndirect(dev, d, m, junk))
    ensures |f| == m && FreeCount(GrowIndirect(dev, d, m, junk).dev.used) == FreeCount(dev.used) - m
    ensures f == Take(dev.used, m) && Took(dev.used, m, GrowIndirect(dev, d, m, junk).dev.used)
  {
    hide Rep, Owned, Words, FromWords, FreeCount, InUse, Take, Took;
    CountsOf(d, dev.disk, x);
    f := ExtendOld(dev, d.indirect, x.ind, junk, d.indirect, m);
    var o := ExtendTable(dev, d.indirect, x.ind, junk, d.indirect, m);
    IndirectFinish(dev, d, x, false, Words(dev.disk[x.ind]), f, o, GrowIndirect(dev, d, m, junk).d);
    AddedZero(x.data, f, o.dev);
  }

  /** What growing the indirect block amounts to. */
  ghost predicate IndirectGrown(dev: Dev, x: Index, taken: set<nat>, y: Index, r: Grown) {
    && x.data <= y.data
    && Rep(r.d, r.dev.disk, y) && Owned(y) == Owned(x) + taken
    && Changes(dev, r.dev, taken, {y.ind})
    && (forall i | |x.data| <= i < |y.data| :: y.data[i] < |r.dev.disk| && r.dev.disk[y.data[i]] == ZeroBlock())
  }

  /** Rewriting the indirect table leaves the tables of the double-indirect block alone. */
  lemma IndirectKept(dev: Dev, x: Index, isNew: bool, t: Table, i: nat, f: seq<Word>, o: Opened)
    requires Separated(x) && InUse(dev.used, Owned(x)) && TableGrown(dev, isNew, t, i, f, o)
    requires isNew == (|x.data| <= DIRECT) && (!isNew ==> o.sector == x.ind)
    ensures o.sector !in f && Fresh(dev, f) && (isNew ==> o.sector < |dev.used| && !dev.used[o.sector])
    ensures forall s | s in x.groups :: s < |dev.disk| && o.dev.disk[s] == dev.disk[s]
    ensures |x.data| > SINGLE ==> x.dbl < |dev.disk| && o.dev.disk[x.dbl] == dev.disk[x.dbl]
  {
    assert !isNew ==> x.ind in Owned(x);
    assert forall s | s in x.groups :: s in Owned(x) && s != o.sector && s !in f;
    assert |x.data| > SINGLE ==> x.dbl in Owned(x) && x.dbl != o.sector && x.dbl !in f;
  }

  lemma IndirectDoneIs(dev: Dev, d: InodeDisk, x: Index, isNew: bool, t: Table, f: seq<Word>, o: Opened, r: InodeDisk)
    requires Counts(d, |x.data|) && |x.data| >= DIRECT && |x.data| + |f| > DIRECT
    requires isNew == (|x.data| == DIRECT) && (f == [] || |x.data| + |f| <= SINGLE)
    requires TableGrown(dev, isNew, t, d.indirect, f, o)
    requires !isNew ==> o.sector == x.ind && x.ind < |dev.disk| && t == Words(dev.disk[x.ind])
    requires Reindexed(d, o.sector, |f|, r)
    requires forall s | s in x.groups :: s < |dev.disk| && o.dev.disk[s] == dev.disk[s]
    requires |x.data| > SINGLE ==> x.dbl < |dev.disk| && o.dev.disk[x.dbl] == dev.disk[x.dbl]
    ensures IndirectDone(d, dev.disk, x, f, o.sector, t, r, o.dev.disk)
  {
    hide Words, FreeCount;
  }

  lemma IndirectFinish(dev: Dev, d: InodeDisk, x: Index, isNew: bool, t: Table, f: seq<Word>, o: Opened, r: InodeDisk)
    requires Rep(d, dev.disk, x) && InUse(dev.used, Owned(x)) && |x.data| >= DIRECT && |x.data| + |f| > DIRECT
    requires isNew == (|x.data| == DIRECT) && (f == [] || |x.data| + |f| <= SINGLE)
    requires TableGrown(dev, isNew, t, d.indirect, f, o)
    requires !isNew ==> o.sector == x.ind && x.ind < |dev.disk| && t == Words(dev.disk[x.ind])
    requires Reindexed(d, o.sector, |f|, r)
    ensures Rep(r, o.dev.disk, Index(x.data + f, o.sector, x.dbl, x.groups))
    ensures Owned(Index(x.data + f, o.sector, x.dbl, x.groups))
            == Owned(x) + if isNew then ToSet(f) + {o.sector} else ToSet(f)
    ensures o.sector !in f
  {
    hide Rep, Owned, Separated, Words, InUse, IndirectDone, TableGrown, Fresh, ToSet, Counts, Reindexed, GroupCount;
    CountsOf(d, dev.disk, x);
    IndirectKept(dev, x, isNew, t, d.indirect, f, o);
    IndirectSeparated(dev, x, f, o.sector);
    IndirectDoneIs(dev, d, x, isNew, t, f, o, r);
    IndirectRep(d, dev.disk, x, f, o.sector, t, r, o.dev.disk);
  }

  // ----- Growing the double-indirect block -----

  /** A file whose first-level table is held in memory as l1 and not yet written back. The
      sector of that table is set aside even while the file has no second-level table. */
  ghost predicate OpenRep(blocks: Blocks, disk: seq<Block>, l1: Table, x: Index) {
    && |x.data| >= SINGLE && Separated(x) && blocks[14] == x.dbl
    && x.dbl < |disk| && x.dbl !in x.data && x.dbl != x.ind && x.dbl !in x.groups
    && (forall s | s in Owned(x) :: s < |disk|)
    && Describes(blocks, Words(Get(disk, x.ind)), l1, disk, x)
  }

  ghost function OpenOwned(x: Index): (r: set<nat>) {
    Owned(x) + {x.dbl}
  }

  /** The index with one more second-level table. */
  ghost function AddGroup(x: Index, f: seq<Word>, s0: Word): Index {
    Index(x.data + f, x.ind, x.dbl, x.groups + [s0])
  }

  lemma GroupSeparated(dev: Dev, x: Index, f: seq<Word>, s0: Word)
    requires Separated(x) && |x.data| >= SINGLE && 0 < |f|
    requires x.dbl !in x.data && x.dbl != x.ind && x.dbl !in x.groups
    requires InUse(dev.used, OpenOwned(x)) && Fresh(dev, f) && s0 < |dev.used| && !dev.used[s0] && s0 !in f
    ensures Separated(AddGroup(x, f, s0))
    ensures OpenOwned(AddGroup(x, f, s0)) == OpenOwned(x) + (ToSet(f) + {s0})
    ensures x.dbl !in x.data + f && x.dbl !in x.groups + [s0]
  {
    var y := AddGroup(x, f, s0);
    assert InUse(dev.used, ToSet(x.data)) by { assert forall s | s in ToSet(x.data) :: s in Owned(x); }
    AppendFresh(dev, x.data, f);
    assert DataSet(y) == DataSet(x) + ToSet(f);
    assert forall s | s in x.groups :: s in Owned(x);
    assert NoDup(y.groups);
    assert TableSet(y) == TableSet(x) + {x.dbl, s0};
  }

  lemma GroupMaps(blocks: Blocks, disk: seq<Block>, l1: Table, x: Index, f: seq<Word>, s0: Word, disk': seq<Block>, k: nat)
    requires OpenRep(blocks, disk, l1, x) && (|x.data| - SINGLE) % 128 == 0 && 0 < |f| <= 128
    requires |disk'| == |disk| && s0 < |disk| && Words(disk'[s0])[..|f|] == f
    requires x.ind < |disk| && disk'[x.ind] == disk[x.ind]
    requires forall s | s in x.groups :: s < |disk| && disk'[s] == disk[s]
    requires k < |x.data| + |f| <= CAPACITY
    ensures Maps(blocks, Words(Get(disk', x.ind)), x.groups + [s0], disk', k, (x.data + f)[k])
  {
    if k < |x.data| {
      assert Maps(blocks, Words(Get(disk, x.ind)), x.groups, disk, k, x.data[k]);
    } else {
      assert (k - SINGLE) / 128 == (|x.data| - SINGLE) / 128 == |x.groups|;
      assert (k - SINGLE) % 128 == k - |x.data|;
      assert Words(disk'[s0])[k - |x.data|] == Words(disk'[s0])[..|f|][k - |x.data|];
    }
  }

  lemma GroupDescribes(blocks: Blocks, disk: seq<Block>, l1: Table, x: Index, f: seq<Word>, s0: Word, disk': seq<Block>)
    requires OpenRep(blocks, disk, l1, x) && (|x.data| - SINGLE) % 128 == 0 && 0 < |f| <= 128
    requires |disk'| == |disk| && s0 < |disk| && Words(disk'[s0])[..|f|] == f
    requires x.ind < |disk| && disk'[x.ind] == disk[x.ind]
    requires forall s | s in x.groups :: s < |disk| && disk'[s] == disk[s]
    requires |x.data| + |f| <= CAPACITY
    ensures |x.groups| < TABLE_SIZE
    ensures Describes(blocks, Words(Get(disk', x.ind)), l1[|x.groups| := s0], disk', AddGroup(x, f, s0))
  {
    forall k | 0 <= k < |x.data| + |f|
      ensures Maps(blocks, Words(Get(disk', x.ind)), x.groups + [s0], disk', k, (x.data + f)[k])
    {
      GroupMaps(blocks, disk, l1, x, f, s0, disk', k);
    }
  }

  /** Adding a second-level table leaves the sectors of the file alone. */
  lemma GroupKept(dev: Dev, x: Index, t: Table, f: seq<Word>, o: Opened)
    requires InUse(dev.used, OpenOwned(x)) && TableGrown(dev, true, t, 0, f, o)
    ensures |o.dev.disk| == |dev.disk| && forall s | s in OpenOwned(x) :: s < |dev.disk| && o.dev.disk[s] == dev.disk[s]
    ensures Words(o.dev.disk[o.sector])[..|f|] == f
  {
    assert forall s | s in OpenOwned(x) :: s != o.sector && s !in f;
    assert o.table[..|f|] == f;
  }

  lemma GroupRep(dev: Dev, blocks: Blocks, l1: Table, x: Index, t: Table, f: seq<Word>, o: Opened)
    requires OpenRep(blocks, dev.disk, l1, x) && InUse(dev.used, OpenOwned(x))
    requires (|x.data| - SINGLE) % 128 == 0 && 0 < |f| <= 128 && |x.data| + |f| <= CAPACITY
    requires TableGrown(dev, true, t, 0, f, o)
    ensures |x.groups| < TABLE_SIZE
    ensures OpenRep(blocks, o.dev.disk, l1[|x.groups| := o.sector], AddGroup(x, f, o.sector))
    ensures OpenOwned(AddGroup(x, f, o.sector)) == OpenOwned(x) + (ToSet(f) + {o.sector})
  {
    hide Words, FromWords, FreeCount, Changes;
    GroupKept(dev, x, t, f, o);
    GroupSeparated(dev, x, f, o.sector);
    assert x.ind in OpenOwned(x) && forall s | s in x.groups :: s in OpenOwned(x);
    GroupDescribes(blocks, dev.disk, l1, x, f, o.sector, o.dev.disk);
    assert x.dbl != o.sector by { assert x.dbl in OpenOwned(x); }
    assert forall s | s in Owned(AddGroup(x, f, o.sector)) :: s in OpenOwned(AddGroup(x, f, o.sector));
  }

  /** What a run of the loop over second-level tables amounts to. */
  ghost predicate GroupsGrown(dev: Dev, blocks: Blocks, x: Index, k: nat, y: Index, r: Dev, l1: Table) {
    && y.ind == x.ind && y.dbl == x.dbl && |y.data| == |x.data| + k && x.data <= y.data
    && OpenRep(blocks, r.disk, l1, y)
    && OpenOwned(x) <= OpenOwned(y)
    && Changes(dev, r, OpenOwned(y) - OpenOwned(x), {})
    && (forall i | |x.data| <= i < |y.data| :: y.data[i] < |r.disk| && r.disk[y.data[i]] == ZeroBlock())
    && FreeCount(r.used) == FreeCount(dev.used) - k - GroupsFor(k)
  }

  lemma OpenGroups(blocks: Blocks, disk: seq<Block>, l1: Table, x: Index, g: nat)
    requires OpenRep(blocks, disk, l1, x) && |x.data| == 141 + 128 * g
    ensures |x.groups| == g && (|x.data| - SINGLE) % 128 == 0
  {
  }

  lemma OneTable(dev: Dev, blocks: Blocks, l1: Table, l2: Table, x: Index, g: nat, m: nat, o: Opened) returns (y: Index)
    requires OpenRep(blocks, dev.disk, l1, x) && InUse(dev.used, OpenOwned(x))
    requires |x.data| == 141 + 128 * g && 0 < m <= 128 && |x.data| + m <= CAPACITY
    requires FreeCount(dev.used) >= m + 1
    requires g < TABLE_SIZE && o == ExtendTable(dev, 0, l1[g], l2, 0, m)
    ensures GroupsGrown(dev, blocks, x, m, y, o.dev, l1[g := o.sector])
    ensures GroupPlan(dev.used, x, y) && Took(dev.used, m + 1, o.dev.used)
  {
    hide OpenRep, InUse, TableGrown, GroupsGrown, Words, FromWords, OpenOwned, ToSet, FreeCount, Take, Took, GroupPlan;
    OpenGroups(blocks, dev.disk, l1, x, g);
    var f := ExtendNew(dev, l1[g], l2, 0, m);
    GroupRep(dev, blocks, l1, x, l2, f, o);
    y := AddGroup(x, f, o.sector);
    OneGroupGrown(dev, blocks, x, l2, f, o, l1[g := o.sector]);
    OneGroupPlan(dev.used, x, o.sector, f);
  }

  lemma GroupChanges(dev: Dev, f: seq<Word>, o: Opened, t: Table)
    requires TableGrown(dev, true, t, 0, f, o)
    ensures Changes(dev, o.dev, ToSet(f) + {o.sector}, {})
    ensures |f| > 0 ==> FreeCount(o.dev.used) == FreeCount(dev.used) - |f| - GroupsFor(|f|)
    ensures forall s | s in f :: s < |o.dev.disk| && o.dev.disk[s] == ZeroBlock()
  {
  }

  lemma OneGroupGrown(dev: Dev, blocks: Blocks, x: Index, t: Table, f: seq<Word>, o: Opened, l1: Table)
    requires InUse(dev.used, OpenOwned(x)) && 0 < |f| <= 128 && TableGrown(dev, true, t, 0, f, o)
    requires OpenRep(blocks, o.dev.disk, l1, AddGroup(x, f, o.sector))
    requires OpenOwned(AddGroup(x, f, o.sector)) == OpenOwned(x) + (ToSet(f) + {o.sector})
    ensures GroupsGrown(dev, blocks, x, |f|, AddGroup(x, f, o.sector), o.dev, l1)
  {
    hide OpenRep, OpenOwned, InUse, Words, FromWords, FreeCount;
    var y := AddGroup(x, f, o.sector);
    AddedOwned(dev, x, y, ToSet(f) + {o.sector});
    GroupChanges(dev, f, o, t);
    AddedZero(x.data, f, o.dev);
  }

  lemma AddedZero(data: seq<Word>, f: seq<Word>, r: Dev)
    requires forall s | s in f :: s < |r.disk| && r.disk[s] == ZeroBlock()
    ensures forall i | |data| <= i < |data + f| :: (data + f)[i] < |r.disk| && r.disk[(data + f)[i]] == ZeroBlock()
  {
    forall i | |data| <= i < |data + f|
      ensures (data + f)[i] < |r.disk| && r.disk[(data + f)[i]] == ZeroBlock()
    {
      var s := f[i - |data|];
      assert (data + f)[i] == s && s in f;
    }
  }

  lemma AddedOwned(dev: Dev, x: Index, y: Index, taken: set<nat>)
    requires InUse(dev.used, OpenOwned(x)) && forall s | s in taken :: s < |dev.used| && !dev.used[s]
    requires OpenOwned(y) == OpenOwned(x) + taken
    ensures OpenOwned(y) - OpenOwned(x) == taken
  {
  }

  lemma GroupsForAdd(m: nat, k: nat)
    requires m % 128 == 0
    ensures GroupsFor(m + k) == GroupsFor(m) + GroupsFor(k)
  {
    var c := m / 128;
    assert m == 128 * c;
  }

  lemma StillZero(dev: Dev, r: Dev, x: Index, y: Index, z: Index, n: nat)
    requires Changes(dev, r, OpenOwned(z) - OpenOwned(y), {}) && y.data <= z.data && n <= |y.data|
    requires forall i | n <= i < |y.data| :: y.data[i] < |dev.disk| && dev.disk[y.data[i]] == ZeroBlock()
    requires forall i | |y.data| <= i < |z.data| :: z.data[i] < |r.disk| && r.disk[z.data[i]] == ZeroBlock()
    ensures forall i | n <= i < |z.data| :: z.data[i] < |r.disk| && r.disk[z.data[i]] == ZeroBlock()
  {
    forall i | n <= i < |y.data|
      ensures r.disk[z.data[i]] == ZeroBlock()
    {
      assert z.data[i] == y.data[i] && y.data[i] in OpenOwned(y);
    }
  }

  lemma GroupsFacts(dev: Dev, blocks: Blocks, x: Index, k: nat, y: Index, r: Dev, l1: Table)
    requires GroupsGrown(dev, blocks, x, k, y, r, l1)
    ensures |y.data| == |x.data| + k && y.dbl == x.dbl < |r.disk|
    ensures FreeCount(r.used) == FreeCount(dev.used) - k - GroupsFor(k)
  {
  }

  /** Loop turns compose. */
  lemma GroupsCompose(dev: Dev, blocks: Blocks, x: Index, m: nat, y: Index, r: Dev, l1: Table,
                      k: nat, z: Index, q: Dev, l1': Table)
    requires GroupsGrown(dev, blocks, x, m, y, r, l1) && GroupsGrown(r, blocks, y, k, z, q, l1') && m % 128 == 0
    ensures GroupsGrown(dev, blocks, x, m + k, z, q, l1')
  {
    GroupsForAdd(m, k);
    StillZero(r, q, x, y, z, |x.data|);
    var a, b, c := OpenOwned(x), OpenOwned(y), OpenOwned(z);
    ChangesCompose(dev, r, q, b - a, {}, c - b, {});
    assert c - a == (b - a) + (c - b);
  }
}

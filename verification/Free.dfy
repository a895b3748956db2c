/** free_inode: giving a file's sectors back (src/filesys/inode.c). */
module Free {
  import opened Common
  import opened Cache
  import opened Sectors
  import opened Inode
  import opened Plans
  import opened Growth
  import opened Grow

  /** Exactly the sectors in `s` were given back. */
  ghost predicate Freed(used: seq<bool>, s: set<nat>, r: seq<bool>) {
    |r| == |used| && forall i | 0 <= i < |used| :: r[i] == (used[i] && i !in s)
  }

  lemma FreedCompose(a: seq<bool>, s: set<nat>, b: seq<bool>, t: set<nat>, c: seq<bool>)
    requires Freed(a, s, b) && Freed(b, t, c)
    ensures Freed(a, s + t, c)
  {
  }

  lemma StillInUse(a: seq<bool>, s: set<nat>, b: seq<bool>, t: set<nat>)
    requires Freed(a, s, b) && InUse(a, t) && s !! t
    ensures InUse(b, t)
  {
  }

  /** free_map_release of one sector, whose bit must be set. */
  method Release(used: seq<bool>, s: nat) returns (r: seq<bool>)
    requires s < |used| && used[s]
    ensures Freed(used, {s}, r)
  {
    r := used[s := false];
  }

  /** The first n entries of a table. */
  method ReleaseEntries(used: seq<bool>, table: seq<Word>, n: nat) returns (r: seq<bool>)
    requires n <= |table| && NoDup(table[..n]) && InUse(used, ToSet(table[..n]))
    ensures Freed(used, ToSet(table[..n]), r)
  {
    r := used;
    for i := 0 to n
      invariant Freed(used, ToSet(table[..i]), r)
    {
      assert table[i] in ToSet(table[..n]) && table[i] !in table[..i] by {
        assert forall j | 0 <= j < n :: table[..n][j] == table[j];
      }
      ghost var before := r;
      r := Release(r, table[i]);
      assert ToSet(table[..i + 1]) == ToSet(table[..i]) + {table[i] as nat};
      FreedCompose(used, ToSet(table[..i]), before, {table[i]}, r);
    }
  }

  // ----- The tables list the data sectors -----

  lemma DirectSlice(d: InodeDisk, disk: seq<Block>, x: Index, m: nat)
    requires Rep(d, disk, x) && m <= |x.data| && m <= DIRECT
    ensures d.blocks[..m] == x.data[..m]
  {
    forall k | 0 <= k < m
      ensures d.blocks[k] == x.data[k]
    {
      assert Maps(d.blocks, Words(Get(disk, x.ind)), x.groups, disk, k, x.data[k]);
    }
  }

  lemma IndirectSlice(d: InodeDisk, disk: seq<Block>, x: Index)
    requires Rep(d, disk, x) && |x.data| > DIRECT
    ensures DIRECT + d.indirect <= |x.data| && d.indirect <= TABLE_SIZE && d.blocks[13] == x.ind
    ensures Words(Get(disk, d.blocks[13]))[..d.indirect] == x.data[DIRECT..DIRECT + d.indirect]
  {
    var t := Words(Get(disk, x.ind));
    forall k | 0 <= k < d.indirect
      ensures t[k] == x.data[DIRECT + k]
    {
      assert Maps(d.blocks, t, x.groups, disk, DIRECT + k, x.data[DIRECT + k]);
    }
  }

  lemma GroupSlice(d: InodeDisk, disk: seq<Block>, x: Index, g: nat, n: nat)
    requires Rep(d, disk, x) && 0 < n <= 128 && 141 + 128 * g + n <= |x.data|
    ensures g < |x.groups| <= TABLE_SIZE && d.blocks[14] == x.dbl && Words(Get(disk, x.dbl))[g] == x.groups[g]
    ensures Words(Get(disk, x.groups[g]))[..n] == x.data[141 + 128 * g..141 + 128 * g + n]
  {
    var first := 141 + 128 * g;
    assert (first - 141) / 128 == g;
    assert Maps(d.blocks, Words(Get(disk, x.ind)), x.groups, disk, first, x.data[first]);
    var t := Words(Get(disk, x.groups[g]));
    forall k | 0 <= k < n
      ensures t[k] == x.data[first + k]
    {
      assert (first + k - 141) / 128 == g && (first + k - 141) % 128 == k;
      assert Maps(d.blocks, Words(Get(disk, x.ind)), x.groups, disk, first + k, x.data[first + k]);
    }
  }

  // ----- What has been given back so far -----

  /** The first k data sectors and the tables t. */
  ghost function Part(x: Index, k: nat, t: set<nat>): set<nat>
    requires k <= |x.data|
  {
    ToSet(x.data[..k]) + t
  }

  lemma NextSlice(x: Index, k: nat, m: nat, t: set<nat>)
    requires Separated(x) && k + m <= |x.data| && t <= TableSet(x)
    ensures var s := x.data[k..k + m];
            NoDup(s) && ToSet(s) <= Owned(x) && ToSet(s) !! Part(x, k, t) && Part(x, k, t) + ToSet(s) == Part(x, k + m, t)
  {
    hide NoDup, ToSet, TableSet;
    SplitSlice(x.data, k, m);
    assert forall e | e in ToSet(x.data[k..k + m]) :: e in DataSet(x);
  }

  lemma SplitSlice(d: seq<Word>, k: nat, m: nat)
    requires NoDup(d) && k + m <= |d|
    ensures var s := d[k..k + m];
            && NoDup(s) && ToSet(s) !! ToSet(d[..k]) && ToSet(d[..k]) + ToSet(s) == ToSet(d[..k + m])
            && forall e | e in ToSet(s) :: e in d
  {
    var s := d[k..k + m];
    assert forall i | 0 <= i < m :: s[i] == d[k + i];
    assert forall i | 0 <= i < k :: d[..k][i] == d[i];
    assert d[..k + m] == d[..k] + s;
  }

  /** Giving back the next m data sectors, listed in a table. */
  method ReleaseNext(used: seq<bool>, table: seq<Word>, m: nat, ghost base: seq<bool>, ghost x: Index, ghost k: nat,
                     ghost t: set<nat>) returns (r: seq<bool>)
    requires Separated(x) && InUse(base, Owned(x)) && t <= TableSet(x)
    requires k + m <= |x.data| && m <= |table| && table[..m] == x.data[k..k + m]
    requires Freed(base, Part(x, k, t), used)
    ensures Freed(base, Part(x, k + m, t), r)
  {
    NextSlice(x, k, m, t);
    StillInUse(base, Part(x, k, t), used, ToSet(table[..m]));
    r := ReleaseEntries(used, table, m);
    FreedCompose(base, Part(x, k, t), used, ToSet(table[..m]), r);
  }

  /** Giving back a table. */
  method ReleaseTable(used: seq<bool>, s: nat, ghost base: seq<bool>, ghost x: Index, ghost k: nat, ghost t: set<nat>)
    returns (r: seq<bool>)
    requires Separated(x) && InUse(base, Owned(x)) && t <= TableSet(x) && s in TableSet(x) && s !in t
    requires k <= |x.data| && Freed(base, Part(x, k, t), used)
    ensures Freed(base, Part(x, k, t + {s}), r)
  {
    assert s !in ToSet(x.data[..k]) by { assert forall e | e in ToSet(x.data[..k]) :: e in DataSet(x); }
    StillInUse(base, Part(x, k, t), used, {s});
    r := Release(used, s);
    FreedCompose(base, Part(x, k, t), used, {s}, r);
    assert Part(x, k, t) + {s} == Part(x, k, t + {s});
  }

  /** The indirect table and the first g second-level tables. */
  ghost function Tables(x: Index, g: nat): set<nat>
    requires g <= |x.groups|
  {
    {x.ind as nat} + ToSet(x.groups[..g])
  }

  lemma NextTable(x: Index, g: nat)
    requires Separated(x) && |x.data| > SINGLE && g <= |x.groups|
    ensures Tables(x, g) <= TableSet(x) && x.dbl in TableSet(x) && x.dbl !in Tables(x, g)
    ensures g < |x.groups| ==> x.groups[g] in TableSet(x) && x.groups[g] !in Tables(x, g)
                               && Tables(x, g) + {x.groups[g] as nat} == Tables(x, g + 1)
    ensures g == |x.groups| ==> Tables(x, g) + {x.dbl as nat} == TableSet(x)
  {
    assert forall i | 0 <= i < g :: x.groups[..g][i] == x.groups[i];
    assert g < |x.groups| ==> x.groups[..g + 1] == x.groups[..g] + [x.groups[g]];
    assert x.groups[..|x.groups|] == x.groups;
  }

  /** One second-level table with n entries. */
  method FreeGroup(used: seq<bool>, disk: seq<Block>, d: InodeDisk, levelOne: Table, g: nat, n: nat,
                   ghost base: seq<bool>, ghost x: Index) returns (r: seq<bool>)
    requires Rep(d, disk, x) && InUse(base, Owned(x)) && |x.data| > SINGLE && levelOne == Words(Get(disk, x.dbl))
    requires 0 < n <= 128 && 141 + 128 * g + n <= |x.data| && g < |x.groups| <= TABLE_SIZE
    requires Freed(base, Part(x, 141 + 128 * g, Tables(x, g)), used)
    ensures Freed(base, Part(x, 141 + 128 * g + n, Tables(x, g + 1)), r)
  {
    GroupSlice(d, disk, x, g, n);
    NextTable(x, g);
    var levelTwo := Words(Get(disk, levelOne[g]));
    r := ReleaseNext(used, levelTwo, n, base, x, 141 + 128 * g, Tables(x, g));
    r := ReleaseTable(r, levelOne[g], base, x, 141 + 128 * g + n, Tables(x, g));
  }

  /** The double-indirect block: the full second-level tables, the last one if it is not full,
      and the first-level table. */
  method FreeDouble(used: seq<bool>, disk: seq<Block>, d: InodeDisk, sectorCount: nat, ghost base: seq<bool>, ghost x: Index)
    returns (r: seq<bool>)
    requires Rep(d, disk, x) && InUse(base, Owned(x)) && |x.data| == 141 + sectorCount && sectorCount > 0
    requires Freed(base, Part(x, 141, Tables(x, 0)), used)
    ensures Freed(base, Owned(x), r)
  {
    var levelOne := Words(Get(disk, d.blocks[14]));
    var left := sectorCount;
    r := used;
    assert d.dbl == sectorCount && d.blocks[14] == x.dbl && |x.groups| == (sectorCount + 127) / 128 <= 128;
    for i := 0 to d.dbl / 128
      invariant left == sectorCount - 128 * i
      invariant Freed(base, Part(x, 141 + 128 * i, Tables(x, i)), r)
    {
      r := FreeGroup(r, disk, d, levelOne, i, 128, base, x);
      left := left - 128;
    }
    if left > 0 {
      r := FreeGroup(r, disk, d, levelOne, d.dbl / 128, d.dbl % 128, base, x);
    }
    NextTable(x, |x.groups|);
    r := ReleaseTable(r, d.blocks[14], base, x, |x.data|, Tables(x, |x.groups|));
    AllFreed(x);
  }

  lemma AllFreed(x: Index)
    requires Separated(x)
    ensures Part(x, |x.data|, TableSet(x)) == Owned(x)
  {
    assert x.data[..|x.data|] == x.data;
  }

  /** free_inode gives back exactly the sectors of the file, each of them once. */
  method FreeInode(used: seq<bool>, disk: seq<Block>, d: InodeDisk, ghost x: Index) returns (r: seq<bool>)
    requires Rep(d, disk, x) && InUse(used, Owned(x)) && |x.data| == SectorCount(d.length)
    ensures Freed(used, Owned(x), r)
  {
    var sectorCount := SectorCount(d.length);
    r := used;
    AllFreed(x);
    if sectorCount == 0 {
      assert Owned(x) == {};
      return;
    }
    var m := Min(DIRECT, sectorCount);
    DirectSlice(d, disk, x, m);
    assert x.data[..m] == x.data[0..m] && Part(x, 0, {}) == {};
    r := ReleaseNext(r, d.blocks, m, used, x, 0, {});
    sectorCount := sectorCount - m;
    if sectorCount == 0 {
      assert TableSet(x) == {};
    } else {
      IndirectSlice(d, disk, x);
      var block := Words(Get(disk, d.blocks[13]));
      r := ReleaseNext(r, block, d.indirect, used, x, DIRECT, {});
      r := ReleaseTable(r, d.blocks[13], used, x, DIRECT + d.indirect, {});
      sectorCount := sectorCount - d.indirect;
      if sectorCount > 0 {
        assert {} + {x.ind as nat} == Tables(x, 0);
        r := FreeDouble(r, disk, d, sectorCount, used, x);
      } else {
        assert TableSet(x) == {} + {x.ind as nat};
      }
    }
  }

  /** A file of n data sectors owns n sectors and its tables, no sector being counted twice. */
  lemma OwnedCount(x: Index)
    requires Separated(x) && |x.groups| == GroupCount(|x.data|)
    ensures |Owned(x)| == Need(|x.data|)
  {
    NoDupCount(x.data);
    NoDupCount(x.groups);
    var a: set<nat> := if |x.data| > DIRECT then {x.ind} else {};
    var b: set<nat> := if |x.data| > SINGLE then {x.dbl} else {};
    assert a !! b && a + b !! ToSet(x.groups);
    assert TableSet(x) == a + b + ToSet(x.groups);
    assert Owned(x) == DataSet(x) + TableSet(x);
    assert |DataSet(x)| == |x.data| by { assert DataSet(x) == ToSet(x.data); }
  }

  lemma {:induction false} NoDupCount(s: seq<Word>)
    requires NoDup(s)
    ensures |ToSet(s)| == |s|
    decreases |s|
  {
    if |s| > 0 {
      var n := |s| - 1;
      NoDupCount(s[..n]);
      assert s == s[..n] + [s[n]];
      assert ToSet(s) == ToSet(s[..n]) + {s[n] as nat};
      assert s[n] !in s[..n];
    }
  }

  /** Giving the sectors back makes exactly as many sectors free as the file had. */
  lemma FreedCount(used: seq<bool>, x: Index, r: seq<bool>)
    requires Separated(x) && |x.groups| == GroupCount(|x.data|) && InUse(used, Owned(x)) && Freed(used, Owned(x), r)
    ensures FreeCount(r) == FreeCount(used) + Need(|x.data|)
  {
    OwnedCount(x);
    assert FreeSet(r) == FreeSet(used) + Owned(x);
    assert FreeSet(used) !! Owned(x);
  }

  /** Growing a file and then freeing it leaves the free map as if the file before growing had
      been freed: what growing takes, freeing gives back. */
  lemma GrowThenFree(dev: Dev, x: Index, g: Dev, gd: InodeDisk, y: Index, r: seq<bool>)
    requires InUse(dev.used, Owned(x)) && Extends(dev, x, g, gd, y) && Freed(g.used, Owned(y), r)
    ensures Freed(dev.used, Owned(x), r)
  {
  }
}

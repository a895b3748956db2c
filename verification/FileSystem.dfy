/** Files as byte sequences over inodes, free map and buffer cache (src/filesys/inode.c). */
module FileSystem {
  import opened Common
  import opened Cache
  import opened Sectors
  import opened Inode
  import opened Plans
  import opened Growth
  import opened Grow
  import opened Free

  // ----- The bytes of a file -----

  ghost predicate Inside(data: seq<Word>, n: nat) {
    forall k | 0 <= k < |data| :: data[k] < n
  }

  /** The contents of the data sectors, one after the other. */
  ghost function Bytes(view: seq<Block>, data: seq<Word>): (b: seq<Byte>)
    requires Inside(data, |view|)
    ensures |b| == 512 * |data|
    ensures forall p | 0 <= p < |b| :: b[p] == view[data[p / 512]][p % 512]
  {
    seq(512 * |data|, p requires 0 <= p < 512 * |data| => view[data[p / 512]][p % 512])
  }

  /** `s` with `piece` written over it at `at`. */
  function Splice(s: seq<Byte>, at: nat, piece: seq<Byte>): (r: seq<Byte>)
    requires at + |piece| <= |s|
    ensures |r| == |s|
    ensures forall p | 0 <= p < |s| :: r[p] == if at <= p < at + |piece| then piece[p - at] else s[p]
  {
    s[..at] + piece + s[at + |piece|..]
  }

  function Zeros(n: nat): (z: seq<Byte>)
    ensures |z| == n && forall p | 0 <= p < n :: z[p] == 0
  {
    seq(n, _ => 0)
  }

  /** Writing within one data sector writes the same bytes of the file. */
  lemma BytesWrite(view: seq<Block>, data: seq<Word>, pos: nat, piece: seq<Byte>)
    requires Inside(data, |view|) && NoDup(data) && pos < 512 * |data| && pos % 512 + |piece| <= 512
    ensures pos + |piece| <= 512 * |data|
    ensures var s := data[pos / 512]; var v := view[s := Patch(view[s], pos % 512, piece)];
            Inside(data, |v|) && Bytes(v, data) == Splice(Bytes(view, data), pos, piece)
  {
    var k := pos / 512;
    var s := data[k];
    var v := view[s := Patch(view[s], pos % 512, piece)];
    forall p | 0 <= p < 512 * |data|
      ensures v[data[p / 512]][p % 512] == Splice(Bytes(view, data), pos, piece)[p]
    {
      assert p / 512 == k ==> p - pos == p % 512 - pos % 512;
    }
  }

  /** The bytes depend on the data sectors only. */
  lemma BytesFrame(view: seq<Block>, view': seq<Block>, data: seq<Word>)
    requires Inside(data, |view|) && |view'| == |view| && forall s | s in data :: view'[s] == view[s]
    ensures Bytes(view', data) == Bytes(view, data)
  {
    forall p | 0 <= p < 512 * |data|
      ensures view'[data[p / 512]][p % 512] == view[data[p / 512]][p % 512]
    {
      assert data[p / 512] in data;
    }
  }

  /** Old sectors kept and new ones zero: zero bytes are appended. */
  lemma BytesExtend(view: seq<Block>, view': seq<Block>, data: seq<Word>, data': seq<Word>)
    requires Inside(data, |view|) && Inside(data', |view'|) && |view'| == |view| && data <= data'
    requires forall s | s in data :: view'[s] == view[s]
    requires forall k | |data| <= k < |data'| :: view'[data'[k]] == ZeroBlock()
    ensures Bytes(view', data') == Bytes(view, data) + Zeros(512 * (|data'| - |data|))
  {
    forall p | 0 <= p < 512 * |data'|
      ensures view'[data'[p / 512]][p % 512] == (Bytes(view, data) + Zeros(512 * (|data'| - |data|)))[p]
    {
      if p < 512 * |data| {
        assert data'[p / 512] == data[p / 512] && data[p / 512] in data;
      }
    }
  }

  // ----- The state of the file system -----

  type Inodes = map<nat, InodeDisk>                  // by the sector of the inode
  type Indexes = map<nat, Index>

  /** The sectors of a file: its inode, its tables and its data. */
  ghost function Holding(index: Indexes, i: nat): (s: set<nat>)
    requires i in index
  {
    Owned(index[i]) + {i}
  }

  /** Files have their sectors to themselves, and those are marked in use. */
  ghost predicate Layout(used: seq<bool>, inodes: Inodes, index: Indexes) {
    && inodes.Keys == index.Keys
    && (forall i | i in index :: InUse(used, Holding(index, i)) && i !in Owned(index[i]))
    && (forall i | i in index :: |index[i].data| == SectorCount(inodes[i].length))
    && (forall i, j | i in index && j in index && i != j :: Holding(index, i) !! Holding(index, j))
  }

  /** The tables on the device describe the files. */
  ghost predicate Mapped(inodes: Inodes, index: Indexes, disk: seq<Block>) {
    inodes.Keys == index.Keys && forall i | i in index :: Rep(inodes[i], disk, index[i])
  }

  /** The sectors of a file that the source reads and writes on the device only: its tables and the
      sector of its inode. */
  ghost function Private(index: Indexes, i: nat): (s: set<nat>)
    requires i in index
  {
    TableSet(index[i]) + {i}
  }

  /** None of those is in the cache. */
  ghost predicate Quiet(index: Indexes, table: seq<Entry>) {
    forall i, s | i in index && s in Private(index, i) :: !Resident(table, s)
  }

  /** An inode in memory is that of its file, and a file without one has it in its sector. */
  ghost predicate Backed(inodes: Inodes, memory: Inodes, disk: seq<Block>) {
    && (forall i | i in memory :: i in inodes && memory[i] == inodes[i])
    && (forall i | i in inodes && i !in memory :: i < |disk| && disk[i] == Image(inodes[i]))
  }

  /** The sectors of inodes are as before. */
  ghost predicate InodesKept(inodes: Inodes, disk: seq<Block>, disk': seq<Block>) {
    |disk'| == |disk| && forall i | i in inodes && i < |disk| :: disk'[i] == disk[i]
  }

  lemma BackedKept(inodes: Inodes, memory: Inodes, disk: seq<Block>, disk': seq<Block>)
    requires Backed(inodes, memory, disk) && InodesKept(inodes, disk, disk')
    ensures Backed(inodes, memory, disk')
  {
    hide Image;
  }

  /** No free sector is in the cache. */
  ghost predicate NoStale(table: seq<Entry>, used: seq<bool>) {
    forall s: nat | Resident(table, s) :: s < |used| && used[s]
  }

  /** None of the sectors is in the cache. */
  ghost predicate Unseen(table: seq<Entry>, s: set<nat>) {
    forall x | x in s :: !Resident(table, x)
  }

  ghost predicate PaddedOne(d: InodeDisk, x: Index, view: seq<Block>) {
    Inside(x.data, |view|) && d.length <= 512 * |x.data| &&
    forall p | d.length <= p < 512 * |x.data| :: Bytes(view, x.data)[p] == 0
  }

  /** The bytes after the end of a file are zero. */
  ghost predicate Padded(inodes: Inodes, index: Indexes, view: seq<Block>) {
    inodes.Keys == index.Keys && forall i | i in index :: PaddedOne(inodes[i], index[i], view)
  }

  ghost function FileBytes(d: InodeDisk, x: Index, view: seq<Block>): (b: seq<Byte>)
    requires PaddedOne(d, x, view)
    ensures |b| == d.length
  {
    Bytes(view, x.data)[..d.length]
  }

  // ----- What keeps the state -----

  lemma RepFrame(d: InodeDisk, disk: seq<Block>, disk': seq<Block>, x: Index)
    requires Rep(d, disk, x) && |disk'| == |disk| && forall s | s in TableSet(x) && s < |disk| :: disk'[s] == disk[s]
    ensures Rep(d, disk', x)
  {
    hide Words;
    assert forall s | s in TableSet(x) :: s in Owned(x);
    assert |x.data| > DIRECT ==> x.ind in TableSet(x);
    assert |x.data| > SINGLE ==> x.dbl in TableSet(x);
    forall k | 0 <= k < |x.data|
      ensures Maps(d.blocks, Words(Get(disk', x.ind)), x.groups, disk', k, x.data[k])
    {
      assert Maps(d.blocks, Words(Get(disk, x.ind)), x.groups, disk, k, x.data[k]);
    }
  }

  lemma TablesInside(d: InodeDisk, disk: seq<Block>, x: Index)
    requires Rep(d, disk, x)
    ensures forall s | s in TableSet(x) :: s < |disk|
  {
    assert forall s | s in TableSet(x) :: s in Owned(x);
  }

  /** Reading or writing data sector s through the cache leaves the tables on the device alone. */
  lemma CacheKeeps(inodes: Inodes, index: Indexes, table: seq<Entry>, disk: seq<Block>, table': seq<Entry>,
                   disk': seq<Block>, s: nat)
    requires Mapped(inodes, index, disk) && Quiet(index, table) && |disk'| == |disk|
    requires forall i | i in index :: s !in Private(index, i)
    requires AtMostLoads(table, table', s)
    requires forall t | 0 <= t < |disk| && t != s :: View(table', disk')[t] == View(table, disk)[t]
    ensures Mapped(inodes, index, disk') && Quiet(index, table') && InodesKept(inodes, disk, disk')
  {
    hide Rep, TableSet;
    forall i, t | i in index && t in Private(index, i)
      ensures !Resident(table', t) && (t < |disk| ==> disk'[t] == disk[t])
    {
      assert !Resident(table, t) && t != s;
      assert t < |disk| ==> View(table', disk')[t] == disk'[t] && View(table, disk)[t] == disk[t];
    }
    forall i | i in index
      ensures Rep(inodes[i], disk', index[i]) && (i < |disk| ==> disk'[i] == disk[i])
    {
      assert i in Private(index, i);
      assert forall t | t in TableSet(index[i]) :: t in Private(index, i);
      RepFrame(inodes[i], disk, disk', index[i]);
    }
  }

  /** Changing sectors of the device that are not cached is seen as it is. */
  lemma DeviceChange(table: seq<Entry>, disk: seq<Block>, disk': seq<Block>, w: set<nat>)
    requires Coherent(table, disk) && |disk'| == |disk|
    requires forall s | 0 <= s < |disk| && s !in w :: disk'[s] == disk[s]
    requires forall s | s in w :: !Resident(table, s)
    ensures Coherent(table, disk')
    ensures forall s | 0 <= s < |disk| :: View(table, disk')[s] == if s in w then disk'[s] else View(table, disk)[s]
  {
    forall i | 0 <= i < |table| && table[i].occupied
      ensures table[i].sector !in w
    {
      assert Holds(table, i, table[i].sector);
    }
  }

  // ----- Growing a file -----

  /** The sectors growing a file writes: the new ones and its old tables. */
  ghost function Written(x: Index, y: Index): set<nat> {
    Owned(y) - Owned(x) + TableSet(x)
  }

  /** The part of Extends that other files depend on. */
  ghost predicate Takes(dev: Dev, x: Index, y: Index, r: Dev) {
    Owned(x) <= Owned(y) && Changes(dev, r, Owned(y) - Owned(x), TableSet(x))
  }

  /** A set of sectors in use and apart from file i is apart from what file i takes. */
  lemma TakesApart(dev: Dev, x: Index, y: Index, r: Dev, h: set<nat>)
    requires Takes(dev, x, y, r) && InUse(dev.used, h) && h !! Owned(x)
    ensures h !! Owned(y) && h !! Written(x, y) && InUse(r.used, h)
    ensures forall s | s in h :: s < |dev.disk| && r.disk[s] == dev.disk[s]
  {
    assert forall s | s in h :: s !in Owned(y) - Owned(x) && s !in TableSet(x);
  }

  lemma TakesInUse(dev: Dev, x: Index, y: Index, r: Dev)
    requires Takes(dev, x, y, r) && InUse(dev.used, Owned(x))
    ensures InUse(r.used, Owned(y))
  {
    assert forall s | s in Owned(y) :: s in Owned(x) || s in Owned(y) - Owned(x);
  }

  lemma LayoutAt(used: seq<bool>, inodes: Inodes, index: Indexes, i: nat)
    requires Layout(used, inodes, index) && i in index
    ensures InUse(used, Owned(index[i])) && InUse(used, {i}) && i !in Owned(index[i])
    ensures |index[i].data| == SectorCount(inodes[i].length)
  {
    assert InUse(used, Holding(index, i));
    assert i in Holding(index, i);
  }

  lemma LayoutApart(used: seq<bool>, inodes: Inodes, index: Indexes, i: nat, j: nat)
    requires Layout(used, inodes, index) && i in index && j in index && i != j
    ensures Holding(index, i) !! Holding(index, j) && InUse(used, Holding(index, j))
    ensures Owned(index[i]) !! Owned(index[j]) && Owned(index[i]) !! Holding(index, j)
  {
  }

  /** Replacing one file's index. */
  lemma LayoutUpdate(used: seq<bool>, inodes: Inodes, index: Indexes, i: nat, d: InodeDisk, y: Index)
    requires inodes.Keys == index.Keys && InUse(used, Owned(y) + {i}) && i !in Owned(y)
    requires |y.data| == SectorCount(d.length)
    requires forall j | j in index && j != i :: InUse(used, Holding(index, j)) && j !in Owned(index[j])
    requires forall j | j in index && j != i :: |index[j].data| == SectorCount(inodes[j].length)
    requires forall j, k | j in index && k in index && j != i && k != i && j != k :: Holding(index, j) !! Holding(index, k)
    requires forall j | j in index && j != i :: Owned(y) + {i} !! Holding(index, j)
    ensures Layout(used, inodes[i := d], index[i := y])
  {
    hide Owned, InUse, SectorCount;
    var index' := index[i := y];
    assert Holding(index', i) == Owned(y) + {i};
    assert forall j | j in index && j != i :: Holding(index', j) == Holding(index, j);
  }

  /** Growing file i leaves file j alone. */
  lemma Untouched(dev: Dev, inodes: Inodes, index: Indexes, i: nat, r: Dev, y: Index, j: nat)
    requires Layout(dev.used, inodes, index) && i in index && j in index && i != j && Takes(dev, index[i], y, r)
    ensures Holding(index, j) !! Owned(y) && Holding(index, j) !! Written(index[i], y) && InUse(r.used, Holding(index, j))
    ensures forall s | s in Holding(index, j) :: s < |dev.disk| && r.disk[s] == dev.disk[s]
  {
    LayoutApart(dev.used, inodes, index, i, j);
    TakesApart(dev, index[i], y, r, Holding(index, j));
  }

  lemma GrownApart(dev: Dev, inodes: Inodes, index: Indexes, i: nat, r: Dev, y: Index, j: nat)
    requires Layout(dev.used, inodes, index) && i in index && j in index && i != j && Takes(dev, index[i], y, r)
    ensures InUse(r.used, Holding(index, j)) && Owned(y) + {i} !! Holding(index, j)
  {
    Untouched(dev, inodes, index, i, r, y, j);
    LayoutApart(dev.used, inodes, index, i, j);
  }

  lemma GrownSelf(dev: Dev, inodes: Inodes, index: Indexes, i: nat, r: Dev, y: Index)
    requires Layout(dev.used, inodes, index) && i in index && Takes(dev, index[i], y, r)
    ensures InUse(r.used, Owned(y) + {i}) && i !in Owned(y)
  {
    LayoutAt(dev.used, inodes, index, i);
    TakesInUse(dev, index[i], y, r);
    TakesApart(dev, index[i], y, r, {i});
  }

  lemma GrowLayout(dev: Dev, inodes: Inodes, index: Indexes, i: nat, r: Dev, rd: InodeDisk, y: Index)
    requires Layout(dev.used, inodes, index) && i in index && Takes(dev, index[i], y, r)
    requires |y.data| == SectorCount(rd.length)
    ensures Layout(r.used, inodes[i := rd], index[i := y])
  {
    GrownSelf(dev, inodes, index, i, r, y);
    forall j | j in index && j != i
      ensures InUse(r.used, Holding(index, j)) && Owned(y) + {i} !! Holding(index, j)
    {
      GrownApart(dev, inodes, index, i, r, y, j);
    }
    LayoutUpdate(r.used, inodes, index, i, rd, y);
  }

  lemma MappedUpdate(inodes: Inodes, index: Indexes, i: nat, d: InodeDisk, y: Index, disk: seq<Block>)
    requires inodes.Keys == index.Keys && Rep(d, disk, y)
    requires forall j | j in index && j != i :: Rep(inodes[j], disk, index[j])
    ensures Mapped(inodes[i := d], index[i := y], disk)
  {
  }

  lemma GrowMapped(dev: Dev, inodes: Inodes, index: Indexes, i: nat, r: Dev, rd: InodeDisk, y: Index)
    requires Layout(dev.used, inodes, index) && Mapped(inodes, index, dev.disk)
    requires i in index && Takes(dev, index[i], y, r) && Rep(rd, r.disk, y)
    ensures Mapped(inodes[i := rd], index[i := y], r.disk)
  {
    forall j | j in index && j != i
      ensures Rep(inodes[j], r.disk, index[j])
    {
      Untouched(dev, inodes, index, i, r, y, j);
      RepFrame(inodes[j], dev.disk, r.disk, index[j]);
    }
    MappedUpdate(inodes, index, i, rd, y, r.disk);
  }

  /** The sectors growth takes are the ones first fit comes to. */
  lemma TakenSectors(dev: Dev, x: Index, r: Dev, rd: InodeDisk, y: Index)
    requires Extends(dev, x, r, rd, y) && FirstFit(dev.used, x, y, r.used)
    ensures Need(|x.data|) <= Need(|y.data|)
    ensures Owned(y) - Owned(x) == ToSet(Take(dev.used, Need(|y.data|) - Need(|x.data|)))
  {
    hide Need, Take, Rep, Owned;
    var t := Take(dev.used, Need(|y.data|) - Need(|x.data|));
    forall s | s in t
      ensures s < |dev.used| && !dev.used[s]
    {
      TakeIsLeast(dev.used, Need(|y.data|) - Need(|x.data|), s);
    }
  }

  /** The file with index x took free sectors and has index y now; no other sector changed hands. */
  ghost predicate Grabbed(used: seq<bool>, x: Index, y: Index, r: seq<bool>) {
    && x.data <= y.data && Owned(x) <= Owned(y) && |r| == |used|
    && (forall s | s in Owned(y) - Owned(x) :: s < |used| && !used[s])
    && (forall s | 0 <= s < |used| :: r[s] == (used[s] || s in Owned(y) - Owned(x)))
  }

  lemma ExtendsGrabs(dev: Dev, x: Index, r: Dev, rd: InodeDisk, y: Index)
    requires Extends(dev, x, r, rd, y)
    ensures Grabbed(dev.used, x, y, r.used)
  {
    hide Rep, Owned;
  }

  lemma GrabsNothing(used: seq<bool>, x: Index)
    ensures Grabbed(used, x, x, used)
  {
    hide Owned;
  }

  lemma GrowQuiet(dev: Dev, index: Indexes, table: seq<Entry>, i: nat, r: Dev, rd: InodeDisk, y: Index)
    requires Quiet(index, table) && i in index && Separated(index[i])
    requires Extends(dev, index[i], r, rd, y) && Unseen(table, Owned(y) - Owned(index[i]))
    ensures Quiet(index[i := y], table) && (NoStale(table, dev.used) ==> NoStale(table, r.used))
    ensures forall s | s in Written(index[i], y) :: !Resident(table, s)
  {
    TablesKept(index[i], y);
    var after := index[i := y];
    forall j, s | j in after && s in Private(after, j)
      ensures !Resident(table, s)
    {
      if j == i {
        assert s in Private(index, i) || s in Owned(y) - Owned(index[i]);
      } else {
        assert s in Private(index, j);
      }
    }
    assert forall s | s in TableSet(index[i]) :: s in Private(index, i);
  }

  /** What clients see of the device after growing file i. */
  ghost predicate GrownView(index: Indexes, i: nat, y: Index, view: seq<Block>, r: Dev, view': seq<Block>) {
    && i in index && |view'| == |view| == |r.disk|
    && (forall s | 0 <= s < |view| :: view'[s] == if s in Written(index[i], y) then r.disk[s] else view[s])
  }

  lemma GrowBytes(dev: Dev, index: Indexes, i: nat, r: Dev, rd: InodeDisk, y: Index, view: seq<Block>, view': seq<Block>)
    requires i in index && Separated(index[i]) && Extends(dev, index[i], r, rd, y)
    requires GrownView(index, i, y, view, r, view') && |view| == |dev.disk| && Inside(index[i].data, |view|)
    ensures Inside(y.data, |view|)
    ensures Bytes(view', y.data) == Bytes(view, index[i].data) + Zeros(512 * (|y.data| - |index[i].data|))
  {
    var x := index[i];
    forall k | 0 <= k < |y.data|
      ensures y.data[k] < |view|
      ensures k >= |x.data| ==> view'[y.data[k]] == ZeroBlock()
    {
      assert y.data[k] in Owned(y);
      if k >= |x.data| { NewData(x, y, k); }
    }
    assert forall s | s in x.data :: s in DataSet(x);
    BytesExtend(view, view', x.data, y.data);
  }

  lemma NewData(x: Index, y: Index, k: nat)
    requires Separated(y) && x.data <= y.data && |x.data| <= k < |y.data| && Owned(x) <= Owned(y)
    ensures y.data[k] in Written(x, y)
  {
    assert y.data[k] in DataSet(y);
    assert y.data[k] !in x.data;
  }

  lemma GrowOthers(dev: Dev, inodes: Inodes, index: Indexes, i: nat, r: Dev, y: Index, view: seq<Block>,
                   view': seq<Block>, j: nat)
    requires Layout(dev.used, inodes, index) && i in index && j in index && j != i && Takes(dev, index[i], y, r)
    requires GrownView(index, i, y, view, r, view') && Inside(index[j].data, |view|)
    ensures Bytes(view', index[j].data) == Bytes(view, index[j].data)
  {
    Untouched(dev, inodes, index, i, r, y, j);
    BytesApart(view, view', index[j], Written(index[i], y));
  }

  lemma BytesApart(view: seq<Block>, view': seq<Block>, x: Index, w: set<nat>)
    requires |view'| == |view| && Inside(x.data, |view|) && Owned(x) !! w
    requires forall s | 0 <= s < |view| && s !in w :: view'[s] == view[s]
    ensures Bytes(view', x.data) == Bytes(view, x.data)
  {
    assert forall s | s in x.data :: s in Owned(x);
    BytesFrame(view, view', x.data);
  }
}

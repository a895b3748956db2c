/** The file system as an object: inode_read_at, inode_write_at, inode_create and the freeing of
    a removed inode (src/filesys/inode.c), through the buffer cache. */
module Volumes {
  import opened Common
  import opened Cache
  import opened Sectors
  import opened Inode
  import opened Plans
  import opened Growth
  import opened Grow
  import opened Free
  import opened FileSystem

  /** At most `size` bytes of s from `offset` on. */
  function Slice(s: seq<Byte>, offset: nat, size: nat): (r: seq<Byte>)
    ensures |r| <= size
  {
    if offset >= |s| then [] else s[offset..Min(offset + size, |s|)]
  }

  /** The bytes to copy at pos: up to the end of the file, of the sector and of the request. */
  function ChunkSize(length: nat, pos: nat, left: nat): (n: int)
    ensures n > 0 ==> pos % 512 + n <= 512 && pos + n <= length && n <= left
    ensures n <= 0 <==> left == 0 || pos >= length
  {
    Min(left, Min(length - pos, 512 - pos % 512))
  }

  lemma BytesRead(view: seq<Block>, data: seq<Word>, pos: nat, n: nat)
    requires Inside(data, |view|) && pos < 512 * |data| && pos % 512 + n <= 512
    ensures pos + n <= 512 * |data|
    ensures view[data[pos / 512]][pos % 512..pos % 512 + n] == Bytes(view, data)[pos..pos + n]
  {
    var block, b := view[data[pos / 512]], Bytes(view, data);
    assert forall q | pos <= q < pos + n :: b[q] == block[q - pos + pos % 512];
  }

  lemma FileRead(d: InodeDisk, x: Index, view: seq<Block>, pos: nat, n: nat)
    requires PaddedOne(d, x, view) && 0 < n && pos + n <= d.length && pos % 512 + n <= 512
    ensures view[x.data[pos / 512]][pos % 512..pos % 512 + n] == FileBytes(d, x, view)[pos..pos + n]
  {
    BytesRead(view, x.data, pos, n);
    SliceOfPrefix(Bytes(view, x.data), d.length, pos, n);
  }

  lemma SliceOfPrefix(b: seq<Byte>, m: nat, pos: nat, n: nat)
    requires pos + n <= m <= |b|
    ensures b[..m][pos..pos + n] == b[pos..pos + n]
  {
  }

  lemma SliceDone(s: seq<Byte>, offset: nat, done: nat, size: nat)
    requires done <= size && (done == size || offset + done >= |s|)
    ensures Slice(s, offset, done) == Slice(s, offset, size)
  {
  }

  lemma SliceGrows(s: seq<Byte>, offset: nat, done: nat, n: nat)
    requires offset + done + n <= |s| && 0 < n
    ensures Slice(s, offset, done) + s[offset + done..offset + done + n] == Slice(s, offset, done + n)
  {
  }

  /** The sector of a byte of a file. */
  lemma SectorOf(used: seq<bool>, inodes: Inodes, index: Indexes, disk: seq<Block>, i: nat, pos: nat)
    requires Layout(used, inodes, index) && Mapped(inodes, index, disk) && i in index && pos < inodes[i].length
    ensures inodes[i].length <= 16525 * 512 && pos / 512 < |index[i].data|
    ensures var s := index[i].data[pos / 512];
            && ByteToSector(inodes[i], disk, pos) == Some(s) && s < |disk|
            && s in DataSet(index[i]) && forall j | j in index :: s !in Private(index, j)
  {
    ByteToSectorFinds(inodes[i], disk, index[i], pos);
    var s := index[i].data[pos / 512];
    assert s in DataSet(index[i]) && s in Owned(index[i]);
    LayoutAt(used, inodes, index, i);
    forall j | j in index
      ensures s !in Private(index, j)
    {
      if j != i { LayoutApart(used, inodes, index, i, j); }
    }
  }

  lemma WriteSelf(d: InodeDisk, x: Index, view: seq<Block>, pos: nat, piece: seq<Byte>, v: seq<Block>)
    requires PaddedOne(d, x, view) && NoDup(x.data) && 0 < |piece|
    requires pos + |piece| <= d.length && pos % 512 + |piece| <= 512
    requires var s := x.data[pos / 512]; v == view[s := Patch(view[s], pos % 512, piece)]
    ensures PaddedOne(d, x, v) && FileBytes(d, x, v) == Splice(FileBytes(d, x, view), pos, piece)
  {
    BytesWrite(view, x.data, pos, piece);
  }

  lemma WriteOther(used: seq<bool>, inodes: Inodes, index: Indexes, view: seq<Block>, i: nat, s: nat, j: nat, v: seq<Block>)
    requires Layout(used, inodes, index) && i in index && j in index && j != i && s in Owned(index[i])
    requires PaddedOne(inodes[j], index[j], view) && |v| == |view|
    requires forall t | 0 <= t < |view| && t != s :: v[t] == view[t]
    ensures PaddedOne(inodes[j], index[j], v) && FileBytes(inodes[j], index[j], v) == FileBytes(inodes[j], index[j], view)
  {
    LayoutApart(used, inodes, index, i, j);
    BytesApart(view, v, index[j], {s});
  }

  /** Writing within the length of file i. */
  lemma WriteKeeps(used: seq<bool>, inodes: Inodes, index: Indexes, view: seq<Block>, i: nat, pos: nat, piece: seq<Byte>,
                   v: seq<Block>)
    requires Layout(used, inodes, index) && Padded(inodes, index, view) && i in index && NoDup(index[i].data)
    requires pos + |piece| <= inodes[i].length && pos % 512 + |piece| <= 512 && 0 < |piece|
    requires var s := index[i].data[pos / 512]; v == view[s := Patch(view[s], pos % 512, piece)]
    ensures Padded(inodes, index, v)
    ensures FileBytes(inodes[i], index[i], v) == Splice(FileBytes(inodes[i], index[i], view), pos, piece)
    ensures forall j | j in index && j != i :: FileBytes(inodes[j], index[j], v) == FileBytes(inodes[j], index[j], view)
  {
    var s := index[i].data[pos / 512];
    WriteSelf(inodes[i], index[i], view, pos, piece, v);
    forall j | j in index && j != i
      ensures PaddedOne(inodes[j], index[j], v) && FileBytes(inodes[j], index[j], v) == FileBytes(inodes[j], index[j], view)
    {
      assert s in Owned(index[i]);
      WriteOther(used, inodes, index, view, i, s, j, v);
    }
  }

  // ----- The whole state -----

  ghost predicate Sound(used: seq<bool>, inodes: Inodes, index: Indexes, table: seq<Entry>, disk: seq<Block>) {
    && Coherent(table, disk) && |used| == |disk| <= 0x1_0000_0000
    && Layout(used, inodes, index) && Mapped(inodes, index, disk) && Quiet(index, table)
    && Padded(inodes, index, View(table, disk))
  }

  ghost function FileAt(inodes: Inodes, index: Indexes, table: seq<Entry>, disk: seq<Block>, i: nat): (b: seq<Byte>)
    requires Padded(inodes, index, View(table, disk)) && i in inodes
  {
    FileBytes(inodes[i], index[i], View(table, disk))
  }

  lemma LoadsInUse(used: seq<bool>, index: Indexes, table: seq<Entry>, table': seq<Entry>, s: nat)
    requires AtMostLoads(table, table', s) && NoStale(table, used) && s < |used| && used[s]
    ensures NoStale(table', used)
  {
  }

  /** Going through the cache for the byte at pos of file i. */
  lemma SoundAccess(used: seq<bool>, inodes: Inodes, index: Indexes, table: seq<Entry>, disk: seq<Block>,
                    table': seq<Entry>, disk': seq<Block>, i: nat, pos: nat)
    requires Sound(used, inodes, index, table, disk) && i in index && pos < inodes[i].length
    requires Coherent(table', disk') && |disk'| == |disk| && pos / 512 < |index[i].data|
    requires AtMostLoads(table, table', index[i].data[pos / 512])
    requires forall t | 0 <= t < |disk| && t != index[i].data[pos / 512] :: View(table', disk')[t] == View(table, disk)[t]
    requires Padded(inodes, index, View(table', disk'))
    ensures Sound(used, inodes, index, table', disk') && InodesKept(inodes, disk, disk')
    ensures NoStale(table, used) ==> NoStale(table', used)
  {
    SectorOf(used, inodes, index, disk, i, pos);
    var s := index[i].data[pos / 512];
    CacheKeeps(inodes, index, table, disk, table', disk', s);
    LayoutAt(used, inodes, index, i);
    assert s in Owned(index[i]);
    if NoStale(table, used) { LoadsInUse(used, index, table, table', s); }
  }

  /** The sector for the byte at pos, as a caller of the cache needs it. */
  lemma SoundPlace(used: seq<bool>, inodes: Inodes, index: Indexes, table: seq<Entry>, disk: seq<Block>, i: nat, pos: nat)
    requires Sound(used, inodes, index, table, disk) && i in inodes && pos < inodes[i].length
    ensures Coherent(table, disk) && i in index && inodes[i].length <= 16525 * 512 && pos / 512 < |index[i].data|
    ensures ByteToSector(inodes[i], disk, pos) == Some(index[i].data[pos / 512]) && index[i].data[pos / 512] < |disk|
  {
    SectorOf(used, inodes, index, disk, i, pos);
  }

  /** Reading through the cache. */
  lemma SoundRead(used: seq<bool>, inodes: Inodes, index: Indexes, table: seq<Entry>, disk: seq<Block>,
                  table': seq<Entry>, disk': seq<Block>, i: nat, pos: nat, n: nat)
    requires Sound(used, inodes, index, table, disk) && i in index
    requires 0 < n && pos + n <= inodes[i].length && pos % 512 + n <= 512 && pos / 512 < |index[i].data|
    requires Coherent(table', disk') && |disk'| == |disk|
    requires AtMostLoads(table, table', index[i].data[pos / 512]) && View(table', disk') == View(table, disk)
    ensures Sound(used, inodes, index, table', disk') && (NoStale(table, used) ==> NoStale(table', used))
    ensures InodesKept(inodes, disk, disk')
    ensures index[i].data[pos / 512] < |disk|
    ensures View(table, disk)[index[i].data[pos / 512]][pos % 512..pos % 512 + n]
            == FileAt(inodes, index, table, disk, i)[pos..pos + n]
    ensures forall j | j in inodes :: FileAt(inodes, index, table', disk', j) == FileAt(inodes, index, table, disk, j)
  {
    assert PaddedOne(inodes[i], index[i], View(table, disk));
    FileRead(inodes[i], index[i], View(table, disk), pos, n);
    SoundAccess(used, inodes, index, table, disk, table', disk', i, pos);
  }

  /** Writing through the cache. */
  lemma SoundWrite(used: seq<bool>, inodes: Inodes, index: Indexes, table: seq<Entry>, disk: seq<Block>,
                   table': seq<Entry>, disk': seq<Block>, i: nat, pos: nat, piece: seq<Byte>)
    requires Sound(used, inodes, index, table, disk) && i in index && 0 < |piece|
    requires pos + |piece| <= inodes[i].length && pos % 512 + |piece| <= 512 && pos / 512 < |index[i].data|
    requires Coherent(table', disk') && |disk'| == |disk| && index[i].data[pos / 512] < |disk|
    requires AtMostLoads(table, table', index[i].data[pos / 512])
    requires var s, view := index[i].data[pos / 512], View(table, disk);
             View(table', disk') == view[s := Patch(view[s], pos % 512, piece)]
    ensures Sound(used, inodes, index, table', disk') && (NoStale(table, used) ==> NoStale(table', used))
    ensures InodesKept(inodes, disk, disk')
    ensures FileAt(inodes, index, table', disk', i) == Splice(FileAt(inodes, index, table, disk, i), pos, piece)
    ensures forall j | j in inodes && j != i ::
        FileAt(inodes, index, table', disk', j) == FileAt(inodes, index, table, disk, j)
  {
    hide Layout, Coherent, NoStale, Quiet, View, FileBytes, PaddedOne, Rep, AtMostLoads;
    assert NoDup(index[i].data) by { SoundFile(used, inodes, index, table, disk, i); }
    WriteKeeps(used, inodes, index, View(table, disk), i, pos, piece, View(table', disk'));
    SoundAccess(used, inodes, index, table, disk, table', disk', i, pos);
  }

  /** `c` with zero bytes added up to n bytes, if it is shorter. */
  function ZeroExtended(c: seq<Byte>, n: nat): (r: seq<Byte>)
    ensures c <= r && |r| == (if n > |c| then n else |c|) && (n <= |c| ==> r == c)
  {
    if n > |c| then c + Zeros(n - |c|) else c
  }

  lemma SpliceStep(c: seq<Byte>, at: nat, data: seq<Byte>, k: nat, n: nat)
    requires k + n <= |data| && at + |data| <= |c|
    ensures Splice(Splice(c, at, data[..k]), at + k, data[k..k + n]) == Splice(c, at, data[..k + n])
  {
  }

  lemma SpliceNone(c: seq<Byte>, at: nat, data: seq<Byte>)
    requires at + |data| <= |c|
    ensures Splice(c, at, data[..0]) == c && data[..|data|] == data
  {
  }

  // ----- Growing -----

  lemma GrownFile(d: InodeDisk, x: Index, view: seq<Block>, rd: InodeDisk, y: Index, view': seq<Block>)
    requires PaddedOne(d, x, view) && d.length <= rd.length <= 512 * |y.data| && |x.data| <= |y.data|
    requires Inside(y.data, |view'|)
    requires Bytes(view', y.data) == Bytes(view, x.data) + Zeros(512 * (|y.data| - |x.data|))
    ensures PaddedOne(rd, y, view')
    ensures FileBytes(rd, y, view') == FileBytes(d, x, view) + Zeros(rd.length - d.length)
  {
    var b, b' := Bytes(view, x.data), Bytes(view', y.data);
    assert forall p | d.length <= p < |b'| :: b'[p] == 0;
  }

  lemma GrownViewIs(dev: Dev, index: Indexes, table: seq<Entry>, i: nat, r: Dev, rd: InodeDisk, y: Index)
    requires Coherent(table, dev.disk) && i in index && Separated(index[i]) && Quiet(index, table)
    requires Extends(dev, index[i], r, rd, y) && Unseen(table, Owned(y) - Owned(index[i]))
    ensures Coherent(table, r.disk) && Quiet(index[i := y], table) && (NoStale(table, dev.used) ==> NoStale(table, r.used))
    ensures GrownView(index, i, y, View(table, dev.disk), r, View(table, r.disk))
  {
    GrowQuiet(dev, index, table, i, r, rd, y);
    DeviceChange(table, dev.disk, r.disk, Written(index[i], y));
  }

  lemma GrownOther(dev: Dev, inodes: Inodes, index: Indexes, i: nat, r: Dev, y: Index, view: seq<Block>,
                   view': seq<Block>, j: nat)
    requires Layout(dev.used, inodes, index) && i in index && j in index && j != i && Takes(dev, index[i], y, r)
    requires GrownView(index, i, y, view, r, view') && PaddedOne(inodes[j], index[j], view)
    ensures PaddedOne(inodes[j], index[j], view')
    ensures FileBytes(inodes[j], index[j], view') == FileBytes(inodes[j], index[j], view)
  {
    GrowOthers(dev, inodes, index, i, r, y, view, view', j);
  }

  lemma GrownPadded(dev: Dev, inodes: Inodes, index: Indexes, i: nat, r: Dev, rd: InodeDisk, y: Index, view: seq<Block>,
                    view': seq<Block>)
    requires Layout(dev.used, inodes, index) && Padded(inodes, index, view) && i in index && Separated(index[i])
    requires Extends(dev, index[i], r, rd, y) && GrownView(index, i, y, view, r, view')
    requires |view'| == |view| == |dev.disk|
    requires |y.data| == SectorCount(rd.length) && inodes[i].length <= rd.length
    ensures PaddedOne(rd, y, view') && Padded(inodes[i := rd], index[i := y], view')
    ensures FileBytes(rd, y, view') == FileBytes(inodes[i], index[i], view) + Zeros(rd.length - inodes[i].length)
    ensures forall j | j in index && j != i :: PaddedOne(inodes[j], index[j], view')
                && FileBytes(inodes[j], index[j], view') == FileBytes(inodes[j], index[j], view)
  {
    hide Extends, GrownView, Layout, FileBytes, PaddedOne, Separated;
    ExtendsTakes(dev, index[i], r, rd, y);
    GrownLengths(inodes[i], index[i], view, rd, y);
    GrowBytes(dev, index, i, r, rd, y, view, view');
    GrownFile(inodes[i], index[i], view, rd, y, view');
    forall j | j in index && j != i
      ensures PaddedOne(inodes[j], index[j], view')
      ensures FileBytes(inodes[j], index[j], view') == FileBytes(inodes[j], index[j], view)
    {
      GrownOther(dev, inodes, index, i, r, y, view, view', j);
    }
  }

  /** The state after growing file i. */
  lemma SoundGrown(dev: Dev, inodes: Inodes, index: Indexes, table: seq<Entry>, i: nat, r: Dev, rd: InodeDisk, y: Index)
    requires Sound(dev.used, inodes, index, table, dev.disk) && i in inodes && Unseen(table, Owned(y) - Owned(index[i]))
    requires Extends(dev, index[i], r, rd, y) && |y.data| == SectorCount(rd.length) && inodes[i].length <= rd.length
    ensures Sound(r.used, inodes[i := rd], index[i := y], table, r.disk)
    ensures NoStale(table, dev.used) ==> NoStale(table, r.used)
    ensures Separated(index[i]) && GrownView(index, i, y, View(table, dev.disk), r, View(table, r.disk))
  {
    hide Extends, View, NoStale, Unseen, FileBytes, Layout, Coherent, GrownView, Quiet, Owned, TableSet, DataSet, PaddedOne, Written;
    assert Rep(inodes[i], dev.disk, index[i]);
    assert Takes(dev, index[i], y, r) && Rep(rd, r.disk, y) by { ExtendsTakes(dev, index[i], r, rd, y); }
    GrownViewIs(dev, index, table, i, r, rd, y);
    GrownPadded(dev, inodes, index, i, r, rd, y, View(table, dev.disk), View(table, r.disk));
    GrowLayout(dev, inodes, index, i, r, rd, y);
    GrowMapped(dev, inodes, index, i, r, rd, y);
  }

  /** Growing file i appends zero bytes to it and leaves every other file as it was. */
  lemma SoundGrow(dev: Dev, inodes: Inodes, index: Indexes, table: seq<Entry>, i: nat, r: Dev, rd: InodeDisk, y: Index)
    requires Sound(dev.used, inodes, index, table, dev.disk) && i in inodes && Unseen(table, Owned(y) - Owned(index[i]))
    requires Extends(dev, index[i], r, rd, y) && |y.data| == SectorCount(rd.length) && inodes[i].length <= rd.length
    ensures Sound(r.used, inodes[i := rd], index[i := y], table, r.disk)
    ensures NoStale(table, dev.used) ==> NoStale(table, r.used)
    ensures FileAt(inodes[i := rd], index[i := y], table, r.disk, i)
            == FileAt(inodes, index, table, dev.disk, i) + Zeros(rd.length - inodes[i].length)
    ensures forall j | j in inodes && j != i ::
        FileAt(inodes[i := rd], index[i := y], table, r.disk, j) == FileAt(inodes, index, table, dev.disk, j)
  {
    hide Extends, View, NoStale, Unseen, FileBytes, Layout, Mapped, Coherent, GrownView, Quiet, Owned, PaddedOne, Separated;
    SoundGrown(dev, inodes, index, table, i, r, rd, y);
    ExtendsTakes(dev, index[i], r, rd, y);
    GrownPadded(dev, inodes, index, i, r, rd, y, View(table, dev.disk), View(table, r.disk));
  }

  lemma ExtendsTakes(dev: Dev, x: Index, r: Dev, rd: InodeDisk, y: Index)
    requires Extends(dev, x, r, rd, y)
    ensures Takes(dev, x, y, r) && Rep(rd, r.disk, y) && |x.data| <= |y.data| && |r.disk| == |dev.disk|
  {
  }

  lemma GrownLengths(d: InodeDisk, x: Index, view: seq<Block>, rd: InodeDisk, y: Index)
    requires PaddedOne(d, x, view) && |y.data| == SectorCount(rd.length)
    ensures Inside(x.data, |view|) && rd.length <= 512 * |y.data|
  {
  }

  /** None of the sectors that growing from n to n' data sectors takes is in the cache. */
  ghost predicate FreshUnseen(used: seq<bool>, table: seq<Entry>, n: nat, n': nat)
    requires |used| <= 0x1_0000_0000
  {
    Need(n) <= Need(n') ==> Unseen(table, ToSet(Take(used, Need(n') - Need(n))))
  }

  /** There is room for a new file of `length` bytes with its inode in sector i, and none of its
      sectors is in the cache. */
  ghost predicate RoomIn(disk: seq<Block>, used: seq<bool>, table: seq<Entry>, i: nat, length: nat) {
    && |used| == |disk| <= 0x1_0000_0000 && SectorCount(length) <= CAPACITY && !Resident(table, i)
    && Fits(Dev(disk, used), 0, SectorCount(length)) && FreshUnseen(used, table, 0, SectorCount(length))
  }

  /** No free sector is in the cache, so none of those. */
  lemma CleanUnseen(used: seq<bool>, table: seq<Entry>, n: nat, n': nat)
    requires |used| <= 0x1_0000_0000 && NoStale(table, used)
    ensures FreshUnseen(used, table, n, n')
  {
    hide Take, Need;
    if Need(n) <= Need(n') {
      var t := Take(used, Need(n') - Need(n));
      forall s | s in t
        ensures !Resident(table, s)
      {
        TakeIsLeast(used, Need(n') - Need(n), s);
      }
    }
  }

  /** The outcome of growing file i, as clients see it. */
  lemma GrownSound(dev: Dev, inodes: Inodes, index: Indexes, table: seq<Entry>, i: nat, r: Grown, y: Index)
    requires Sound(dev.used, inodes, index, table, dev.disk) && i in inodes && i in index
    requires |index[i].data| == SectorCount(inodes[i].length) && inodes[i].length <= r.d.length
    requires var n, n' := |index[i].data|, SectorCount(r.d.length);
             n' <= CAPACITY && Fits(dev, n, n') && Outcome(dev, index[i], r, y, n') && FreshUnseen(dev.used, table, n, n')
    ensures Sound(r.dev.used, inodes[i := r.d], index[i := y], table, r.dev.disk)
    ensures NoStale(table, dev.used) ==> NoStale(table, r.dev.used)
    ensures Grabbed(dev.used, index[i], y, r.dev.used) && InodesKept(inodes, dev.disk, r.dev.disk)
    ensures FileAt(inodes[i := r.d], index[i := y], table, r.dev.disk, i)
            == ZeroExtended(FileAt(inodes, index, table, dev.disk, i), r.d.length)
    ensures forall j | j in inodes && j != i ::
        FileAt(inodes[i := r.d], index[i := y], table, r.dev.disk, j) == FileAt(inodes, index, table, dev.disk, j)
  {
    hide Sound, Extends, FirstFit, Fits, Unseen, NoStale, View, Take, Need, Resumed, Padded, Grabbed, Layout, InodesKept;
    TakenSectors(dev, index[i], r.dev, r.d, y);
    ExtendsGrabs(dev, index[i], r.dev, r.d, y);
    SoundLayout(dev.used, inodes, index, table, dev.disk);
    GrownInodes(dev, inodes, index, i, r.dev, r.d, y);
    SoundGrow(dev, inodes, index, table, i, r.dev, r.d, y);
    SoundPadded(dev.used, inodes, index, table, dev.disk, i);
  }

  /** Growing file i leaves the sectors of all inodes alone. */
  lemma GrownInodes(dev: Dev, inodes: Inodes, index: Indexes, i: nat, r: Dev, rd: InodeDisk, y: Index)
    requires Layout(dev.used, inodes, index) && i in index && Extends(dev, index[i], r, rd, y)
    ensures InodesKept(inodes, dev.disk, r.disk)
  {
    hide Layout, Extends, Owned, Holding;
    ExtendsTakes(dev, index[i], r, rd, y);
    LayoutAt(dev.used, inodes, index, i);
    TakesApart(dev, index[i], y, r, {i});
    assert i in {i};
    KeysOf(dev.used, inodes, index);
    forall j | j in inodes && j != i
      ensures j < |dev.disk| && r.disk[j] == dev.disk[j]
    {
      Untouched(dev, inodes, index, i, r, y, j);
      InHolding(index, j);
    }
  }

  lemma KeysOf(used: seq<bool>, inodes: Inodes, index: Indexes)
    requires Layout(used, inodes, index)
    ensures inodes.Keys == index.Keys
  {
  }

  lemma InHolding(index: Indexes, j: nat)
    requires j in index
    ensures j in Holding(index, j)
  {
  }

  // ----- The sector of an inode -----

  /** The sector of an inode is no file's data and no table. */
  lemma InodeApart(used: seq<bool>, inodes: Inodes, index: Indexes, i: nat, j: nat)
    requires Layout(used, inodes, index) && i in index && j in index
    ensures i !in Owned(index[j])
  {
    if i == j { LayoutAt(used, inodes, index, i); } else { LayoutApart(used, inodes, index, i, j); }
  }

  /** Writing the sector of inode i on the device changes no file. */
  lemma SoundImage(used: seq<bool>, inodes: Inodes, index: Indexes, table: seq<Entry>, disk: seq<Block>, i: nat, b: Block)
    requires Sound(used, inodes, index, table, disk) && i in inodes
    ensures i < |disk| && Sound(used, inodes, index, table, disk[i := b])
    ensures forall j | j in inodes :: FileAt(inodes, index, table, disk[i := b], j) == FileAt(inodes, index, table, disk, j)
  {
    hide Coherent, View, Rep, Bytes, Layout, Owned, Inside;
    LayoutAt(used, inodes, index, i);
    assert i in {i};
    var disk' := disk[i := b];
    assert !Resident(table, i) by { assert i in Private(index, i); }
    DeviceChange(table, disk, disk', {i});
    forall j | j in index
      ensures Rep(inodes[j], disk', index[j]) && PaddedOne(inodes[j], index[j], View(table, disk'))
      ensures Bytes(View(table, disk'), index[j].data) == Bytes(View(table, disk), index[j].data)
    {
      InodeApart(used, inodes, index, i, j);
      TablesOwned(index[j]);
      RepFrame(inodes[j], disk, disk', index[j]);
      BytesApart(View(table, disk), View(table, disk'), index[j], {i});
    }
  }

  lemma TablesOwned(x: Index)
    ensures TableSet(x) <= Owned(x)
  {
  }

  /** The outcome of inode_grow on a device and a free map. */
  ghost predicate Grew(disk: seq<Block>, used: seq<bool>, x: Index, disk': seq<Block>, used': seq<bool>, d: InodeDisk,
                       y: Index, n: nat) {
    && |disk| == |used| <= 0x1_0000_0000 && |disk'| == |used'| <= 0x1_0000_0000
    && Outcome(Dev(disk, used), x, Grown(Dev(disk', used'), d), y, n)
  }

  lemma GrewIs(dev: Dev, x: Index, r: Grown, y: Index, n: nat)
    requires Outcome(dev, x, r, y, n)
    ensures Grew(dev.disk, dev.used, x, r.dev.disk, r.dev.used, r.d, y, n)
  {
    hide Outcome;
    assert Dev(dev.disk, dev.used) == dev && Grown(Dev(r.dev.disk, r.dev.used), r.d) == r;
  }

  /** The outcome of inode_create: the new inode has grown, and its image was written to sector i. */
  ghost predicate Made(disk: seq<Block>, used: seq<bool>, i: nat, disk': seq<Block>, used': seq<bool>, d: InodeDisk, y: Index) {
    exists mid: seq<Block> :: MadeFrom(disk, used, i, mid, disk', used', d, y)
  }

  ghost predicate MadeFrom(disk: seq<Block>, used: seq<bool>, i: nat, mid: seq<Block>, disk': seq<Block>, used': seq<bool>,
                           d: InodeDisk, y: Index) {
    && i < |mid| && disk' == mid[i := Image(d)]
    && Grew(disk, used, EmptyIndex(), mid, used', d, y, SectorCount(d.length))
  }

  /** A new file in sector i, as clients see it. */
  lemma CreatedSound(dev: Dev, inodes: Inodes, index: Indexes, table: seq<Entry>, i: nat, isDir: bool, r: Grown, y: Index)
    requires Sound(dev.used, inodes, index, table, dev.disk) && i !in inodes && InUse(dev.used, {i})
    requires forall j | j in inodes :: i !in Owned(index[j])
    requires RoomIn(dev.disk, dev.used, table, i, r.d.length)
    requires Outcome(dev, EmptyIndex(), r, y, SectorCount(r.d.length))
    ensures i < |r.dev.disk|
    ensures var disk', inodes', index' := r.dev.disk[i := Image(r.d)], inodes[i := r.d], index[i := y];
            && Sound(r.dev.used, inodes', index', table, disk')
            && FileAt(inodes', index', table, disk', i) == Zeros(r.d.length)
            && (forall j | j in inodes :: FileAt(inodes', index', table, disk', j) == FileAt(inodes, index, table, dev.disk, j))
            && InodesKept(inodes, dev.disk, disk')
    ensures Grabbed(dev.used, EmptyIndex(), y, r.dev.used)
    ensures NoStale(table, dev.used) ==> NoStale(table, r.dev.used)
  {
    hide Sound, Fits, FreshUnseen, Outcome, Grabbed, NoStale, FileAt, Image, Owned, View, Padded, SectorCount, EmptyInode;
    var inodes0, index0 := inodes[i := EmptyInode(isDir)], index[i := EmptyIndex()];
    SoundLayout(dev.used, inodes, index, table, dev.disk);
    SoundEmpty(dev.used, inodes, index, table, dev.disk, i, isDir);
    EmptyLength(isDir);
    GrownSound(dev, inodes0, index0, table, i, r, y);
    assert inodes0[i := r.d] == inodes[i := r.d] && index0[i := y] == index[i := y];
    EmptyExtended(r.d.length);
    SoundImage(r.dev.used, inodes[i := r.d], index[i := y], table, r.dev.disk, i, Image(r.d));
    assert forall j | j in inodes :: j in inodes0 && j != i;
  }

  /** The sector of byte pos is in the cache, to be written back. */
  ghost predicate Shown(x: Index, table: seq<Entry>, pos: nat) {
    pos / 512 < |x.data| && Pending(table, x.data[pos / 512])
  }

  lemma ShownTo(x: Index, table: seq<Entry>, pos: nat, last: nat)
    requires Shown(x, table, pos) && pos <= last < pos - pos % 512 + 512
    ensures Shown(x, table, last)
  {
    assert last / 512 == pos / 512;
  }

  lemma SoundLayout(used: seq<bool>, inodes: Inodes, index: Indexes, table: seq<Entry>, disk: seq<Block>)
    requires Sound(used, inodes, index, table, disk)
    ensures Layout(used, inodes, index) && inodes.Keys == index.Keys
  {
  }

  lemma SoundPadded(used: seq<bool>, inodes: Inodes, index: Indexes, table: seq<Entry>, disk: seq<Block>, i: nat)
    requires Sound(used, inodes, index, table, disk) && i in inodes
    ensures Padded(inodes, index, View(table, disk)) && |FileAt(inodes, index, table, disk, i)| == inodes[i].length
  {
  }

  class Volume {
    const cache: BufferCache
    var used: seq<bool>
    var memory: Inodes                               // the inodes that are in memory
    ghost var inodes: Inodes                         // the inode of every file, and what its tables say
    ghost var index: Indexes

    ghost predicate Valid()
      reads this, cache, cache.table
    {
      && cache.table.Length == CACHE_SIZE && |used| == |cache.disk| <= 0x1_0000_0000
      && Sound(used, inodes, index, cache.table[..], cache.disk) && Backed(inodes, memory, cache.disk)
    }

    /** The bytes of the file whose inode is in sector i. */
    ghost function Contents(i: nat): (b: seq<Byte>)
      requires Valid() && i in inodes
      reads this, cache, cache.table
      ensures |b| == inodes[i].length
    {
      FileAt(inodes, index, cache.table[..], cache.disk, i)
    }

    /** Every cached sector is in use. */
    ghost predicate Clean()
      reads this`used, cache, cache.table
    {
      NoStale(cache.table[..], used)
    }

    lemma KeysAgree()
      requires Valid()
      ensures inodes.Keys == index.Keys && |used| == |cache.disk| && memory.Keys <= inodes.Keys
      ensures forall i | i in memory :: memory[i] == inodes[i]
    {
    }

    lemma Parts()
      requires Valid()
      ensures cache.table.Length == CACHE_SIZE && |used| == |cache.disk| <= 0x1_0000_0000
      ensures Sound(used, inodes, index, cache.table[..], cache.disk) && Backed(inodes, memory, cache.disk)
      ensures Padded(inodes, index, View(cache.table[..], cache.disk))
      ensures forall j | j in inodes :: Contents(j) == FileAt(inodes, index, cache.table[..], cache.disk, j)
    {
      hide Coherent, View, Backed, FileBytes;
    }

    lemma Whole()
      requires cache.table.Length == CACHE_SIZE && |used| == |cache.disk| <= 0x1_0000_0000
      requires Sound(used, inodes, index, cache.table[..], cache.disk) && Backed(inodes, memory, cache.disk)
      ensures Valid() && Padded(inodes, index, View(cache.table[..], cache.disk))
      ensures forall j | j in inodes :: Contents(j) == FileAt(inodes, index, cache.table[..], cache.disk, j)
    {
      hide Coherent, View, Backed, FileBytes;
    }

    lemma FileHolds(i: nat)
      requires Valid() && i in inodes
      ensures i in index && Rep(inodes[i], cache.disk, index[i]) && |index[i].data| == SectorCount(inodes[i].length)
    {
      SoundFile(used, inodes, index, cache.table[..], cache.disk, i);
    }

    /** A mounted device without files. */
    constructor (disk: seq<Block>, used: seq<bool>)
      requires |disk| == |used| <= 0x1_0000_0000
      ensures Valid() && Clean() && inodes == map[] && memory == map[] && this.used == used && cache.Contents() == disk
      ensures fresh(cache) && fresh(cache.table)
    {
      cache := new BufferCache(disk);
      this.used := used;
      memory := map[];
      inodes := map[];
      index := map[];
    }

    /** The block_read of inode_open: the inode found in its sector is that of the file. */
    method Load(i: nat)
      requires Valid() && i in inodes && i !in memory
      modifies this`memory
      ensures Valid() && memory == old(memory)[i := inodes[i]]
      ensures forall j | j in inodes :: Contents(j) == old(Contents(j))
    {
      hide Sound, Image, InodeOf, FileAt;
      SoundFile(used, inodes, index, cache.table[..], cache.disk, i);
      RepStorable(inodes[i], cache.disk, index[i]);
      ImageRoundTrip(inodes[i]);
      memory := memory[i := InodeOf(cache.disk[i])];
    }

    /** The block_write of inode_close. */
    method Store(i: nat)
      requires Valid() && i in memory
      modifies this`memory, cache
      ensures Valid() && memory == old(memory) - {i} && (old(Clean()) ==> Clean())
      ensures i < |cache.disk| && cache.disk == old(cache.disk)[i := Image(inodes[i])]
      ensures forall j | j in inodes :: Contents(j) == old(Contents(j))
    {
      hide Sound, Image, NoStale, FileAt;
      SoundImage(used, inodes, index, cache.table[..], cache.disk, i, Image(memory[i]));
      cache.disk := cache.disk[i := Image(memory[i])];
      memory := memory - {i};
    }

    /** One turn of inode_read_at, within a sector. */
    method ReadChunk(i: nat, pos: nat, n: nat) returns (chunk: seq<Byte>)
      requires Valid() && i in memory && i in inodes && 0 < n && pos + n <= inodes[i].length && pos % 512 + n <= 512
      modifies cache, cache.table
      ensures Valid() && cache.Contents() == old(cache.Contents()) && (old(Clean()) ==> Clean())
      ensures forall j | j in inodes :: Contents(j) == old(Contents(j))
      ensures chunk == old(Contents(i))[pos..pos + n]
    {
      hide Sound, Coherent, NoStale, View, ByteToSector, Backed, InodesKept;
      KeysAgree();
      SoundPlace(used, inodes, index, cache.table[..], cache.disk, i, pos);
      var sector := ByteToSector(memory[i], cache.disk, pos).value;
      chunk := cache.Read(sector, pos % 512, n);
      SoundRead(used, inodes, index, old(cache.table[..]), old(cache.disk), cache.table[..], cache.disk, i, pos, n);
      BackedKept(inodes, memory, old(cache.disk), cache.disk);
    }

    /** inode_read_at */
    method ReadAt(i: nat, size: nat, offset: nat) returns (buffer: seq<Byte>)
      requires Valid() && i in memory && i in inodes
      modifies cache, cache.table
      ensures Valid() && cache.Contents() == old(cache.Contents()) && (old(Clean()) ==> Clean())
      ensures forall j | j in inodes :: Contents(j) == old(Contents(j))
      ensures buffer == Slice(Contents(i), offset, size)
    {
      hide *;
      KeysAgree();
      ghost var whole := Contents(i);
      var pos: nat, left: nat := offset, size;
      buffer := [];
      while left > 0
        invariant Valid() && cache.Contents() == old(cache.Contents()) && (old(Clean()) ==> Clean())
        invariant forall j | j in inodes :: Contents(j) == old(Contents(j))
        invariant offset <= pos && pos + left == offset + size
        invariant buffer == Slice(whole, offset, pos - offset)
      {
        var n := ChunkSize(memory[i].length, pos, left);
        if n <= 0 {
          break;
        }
        var chunk := ReadChunk(i, pos, n);
        SliceGrows(whole, offset, pos - offset, n);
        buffer := buffer + chunk;
        pos, left := pos + n, left - n;
      }
      SliceDone(whole, offset, pos - offset, size);
    }

    /** Growing file i to `length` bytes does what it should. */
    ghost predicate Room(i: nat, length: nat)
      requires i in inodes
      reads this, cache
    {
      && |used| == |cache.disk| <= 0x1_0000_0000
      && SectorCount(length) <= CAPACITY
      && Fits(Dev(cache.disk, used), SectorCount(inodes[i].length), SectorCount(length))
    }

    /** None of the sectors that growing file i to `length` bytes takes is in the cache. */
    ghost predicate Unstale(i: nat, length: nat)
      requires i in inodes
      reads this, cache, cache.table
    {
      |used| <= 0x1_0000_0000 && FreshUnseen(used, cache.table[..], SectorCount(inodes[i].length), SectorCount(length))
    }

    /** inode_grow on an open inode. It appends zero bytes if there is room for them and the
        sectors it takes are not in the cache; what it does otherwise is said by Grow.ResumedBytes
        and Stale.StaleExactly. */
    method GrowTo(i: nat, length: nat, junk: Table, junk1: Table, junk2: Table)
      requires Valid() && i in memory && i in inodes && inodes[i].length <= length
      modifies this, cache
      ensures inodes.Keys == old(inodes.Keys) == index.Keys && forall j | j in inodes && j != i :: inodes[j] == old(inodes[j])
      ensures memory == old(memory)[i := inodes[i]]
      ensures inodes[i].length == length && inodes[i].isDir == old(inodes[i].isDir) && inodes[i].parent == old(inodes[i].parent)
      ensures |used| == |cache.disk| == old(|used|) == old(|cache.disk|) <= 0x1_0000_0000
      ensures forall j | j in index && j != i :: j in old(index) && index[j] == old(index[j])
      ensures i in old(index) && old(Rep(inodes[i], cache.disk, index[i]) && InUse(used, Owned(index[i])))
      ensures Grew(old(cache.disk), old(used), old(index[i]), cache.disk, used, inodes[i], index[i], SectorCount(length))
      ensures old(Room(i, length) && Unstale(i, length)) ==>
                && Valid() && (old(Clean()) ==> Clean()) && Grabbed(old(used), old(index[i]), index[i], used)
                && (forall j | j in inodes && j != i :: Contents(j) == old(Contents(j)))
                && Contents(i) == ZeroExtended(old(Contents(i)), length)
    {
      hide Sound, Coherent, NoStale, View, Outcome, Grew, Grabbed, Layout, Mapped, Rep, Fits, Quiet, Padded, Backed;
      hide FileBytes, FileAt, FreshUnseen, InUse, Owned, InodesKept;
      ghost var dev: Dev := Dev(cache.disk, used);
      KeysAgree();
      SoundFile(used, inodes, index, cache.table[..], cache.disk, i);
      var r;
      ghost var y;
      r, y := InodeGrow(Dev(cache.disk, used), memory[i], length, junk, junk1, junk2, index[i]);
      if old(Room(i, length) && Unstale(i, length)) {
        GrownSound(dev, inodes, index, cache.table[..], i, r, y);
        BackedGrown(inodes, memory, cache.disk, i, r.d, r.dev.disk);
      }
      GrewIs(dev, index[i], r, y, SectorCount(length));
      cache.disk := r.dev.disk;
      used := r.dev.used;
      memory := memory[i := r.d];
      inodes := inodes[i := r.d];
      index := index[i := y];
    }

    /** One turn of inode_write_at, within a sector. */
    method WriteChunk(i: nat, pos: nat, piece: seq<Byte>)
      requires Valid() && i in memory && i in inodes
      requires 0 < |piece| && pos + |piece| <= inodes[i].length && pos % 512 + |piece| <= 512
      modifies cache, cache.table
      ensures Valid() && (old(Clean()) ==> Clean())
      ensures forall j | j in inodes && j != i :: Contents(j) == old(Contents(j))
      ensures Contents(i) == Splice(old(Contents(i)), pos, piece)
      ensures i in index && Shown(index[i], cache.table[..], pos)
    {
      hide Sound, Coherent, NoStale, View, ByteToSector, Backed, InodesKept;
      KeysAgree();
      SoundPlace(used, inodes, index, cache.table[..], cache.disk, i, pos);
      var sector := ByteToSector(memory[i], cache.disk, pos).value;
      cache.Write(sector, pos % 512, piece);
      SoundWrite(used, inodes, index, old(cache.table[..]), old(cache.disk), cache.table[..], cache.disk, i, pos, piece);
      BackedKept(inodes, memory, old(cache.disk), cache.disk);
    }

    /** The loop of inode_write_at, within the length of the file. */
    method WriteAll(i: nat, data: seq<Byte>, offset: nat) returns (written: nat)
      requires Valid() && i in memory && i in inodes && offset + |data| <= inodes[i].length
      modifies cache, cache.table
      ensures Valid() && (old(Clean()) ==> Clean()) && written == |data|
      ensures forall j | j in inodes && j != i :: Contents(j) == old(Contents(j))
      ensures Contents(i) == Splice(old(Contents(i)), offset, data)
      ensures written > 0 ==> i in index && Shown(index[i], cache.table[..], offset + written - 1)
    {
      hide *;
      KeysAgree();
      ghost var whole := Contents(i);
      SpliceNone(whole, offset, data);
      var pos: nat, left: nat := offset, |data|;
      written := 0;
      while left > 0
        invariant Valid() && (old(Clean()) ==> Clean())
        invariant forall j | j in inodes && j != i :: Contents(j) == old(Contents(j))
        invariant pos == offset + written && written + left == |data|
        invariant Contents(i) == Splice(whole, offset, data[..written])
        invariant written > 0 ==> i in index && Shown(index[i], cache.table[..], offset + written - 1)
      {
        var n := ChunkSize(memory[i].length, pos, left);
        if n <= 0 {
          break;
        }
        WriteChunk(i, pos, data[written..written + n]);
        ShownTo(index[i], cache.table[..], pos, pos + n - 1);
        SpliceStep(whole, offset, data, written, n);
        pos, left, written := pos + n, left - n, written + n;
      }
    }

    /** inode_write_at. The file first grows to hold the bytes, if it has to. */
    method WriteAt(i: nat, data: seq<Byte>, offset: nat, denyCount: nat, junk: Table, junk1: Table, junk2: Table)
      returns (written: nat)
      requires Valid() && i in memory && i in inodes
      requires denyCount == 0 && offset + |data| > inodes[i].length ==> Room(i, offset + |data|) && Unstale(i, offset + |data|)
      modifies this, cache, cache.table
      ensures Valid() && (old(Clean()) ==> Clean()) && inodes.Keys == old(inodes.Keys)
      ensures forall j | j in inodes && j != i :: inodes[j] == old(inodes[j]) && Contents(j) == old(Contents(j))
      ensures inodes[i].isDir == old(inodes[i].isDir) && inodes[i].parent == old(inodes[i].parent)
      ensures written == if denyCount > 0 then 0 else |data|
      ensures Contents(i) == if denyCount > 0 then old(Contents(i))
                             else Splice(ZeroExtended(old(Contents(i)), offset + |data|), offset, data)
      ensures denyCount > 0 ==> inodes == old(inodes) && used == old(used) && index == old(index) && cache.disk == old(cache.disk)
      ensures memory.Keys == old(memory.Keys)
      ensures i in old(index) && index.Keys == old(index.Keys) && Grabbed(old(used), old(index[i]), index[i], used)
      ensures forall j | j in index && j != i :: index[j] == old(index[j])
      ensures written > 0 ==> Shown(index[i], cache.table[..], offset + written - 1)
    {
      hide *;
      KeysAgree();
      GrabsNothing(used, index[i]);
      if denyCount > 0 {
        return 0;
      }
      if offset + |data| > memory[i].length {
        GrowTo(i, offset + |data|, junk, junk1, junk2);
      }
      written := WriteAll(i, data, offset);
    }

    /** cache_writeback: the device alone now holds every file, its inode too if it is not in memory. */
    method Sync(last: bool)
      requires Valid()
      modifies cache, cache.table
      ensures Valid() && (old(Clean()) || last ==> Clean()) && cache.disk == cache.Contents()
      ensures forall j | j in inodes :: Contents(j) == old(Contents(j))
      ensures forall j | j in inodes :: Contents(j) == FileBytes(inodes[j], index[j], cache.disk)
      ensures forall j | j in inodes && j !in memory :: j < |cache.disk| && InodeOf(cache.disk[j]) == inodes[j]
    {
      hide Sound, Coherent, View, Backed, InodesKept, InodeOf;
      SoundCache(used, inodes, index, cache.table[..], cache.disk);
      cache.Writeback(last);
      SoundSync(used, inodes, index, old(cache.table[..]), old(cache.disk), cache.table[..], cache.disk);
      BackedKept(inodes, memory, old(cache.disk), cache.disk);
      forall j | j in inodes && j !in memory
        ensures j < |cache.disk| && InodeOf(cache.disk[j]) == inodes[j]
      {
        SoundFile(used, inodes, index, cache.table[..], cache.disk, j);
        BackedInode(inodes, memory, index, cache.disk, j);
      }
    }

    /** A new file of `length` bytes with its inode in sector i has room, and none of its sectors is in
        the cache. */
    ghost predicate RoomForNew(i: nat, length: nat)
      reads this`used, cache, cache.table
    {
      RoomIn(cache.disk, used, cache.table[..], i, length)
    }

    /** inode_create once it has memory: a new inode grows and is written to its sector. */
    method CreateNow(i: nat, length: nat, isDir: bool, junk: Table, junk1: Table, junk2: Table)
      requires Valid() && i !in inodes && InUse(used, {i})
      requires forall j | j in inodes :: i !in Owned(index[j])
      modifies this, cache
      ensures i in inodes && inodes == old(inodes)[i := inodes[i]] && memory == old(memory)
      ensures i in index && index == old(index)[i := index[i]]
      ensures inodes[i].length == length && inodes[i].isDir == isDir && inodes[i].parent == ROOT_DIR_SECTOR
      ensures |used| == |cache.disk| == old(|used|)
      ensures Made(old(cache.disk), old(used), i, cache.disk, used, inodes[i], index[i])
      ensures old(RoomForNew(i, length)) ==>
                && Valid() && (old(Clean()) ==> Clean()) && Grabbed(old(used), EmptyIndex(), index[i], used)
                && (forall j | j in old(inodes) :: Contents(j) == old(Contents(j)))
                && Contents(i) == Zeros(length)
    {
      hide *;
      Parts();
      KeysAgree();
      EmptyLength(isDir);
      EmptyDescribed(isDir, cache.disk);
      NothingUsed(used);
      InsideIs(used, i);
      ghost var disk0, used0, inodes0, table := cache.disk, used, inodes, cache.table[..];
      ghost var room := RoomForNew(i, length);
      var r;
      ghost var y;
      r, y := InodeGrow(Dev(cache.disk, used), EmptyInode(isDir), length, junk, junk1, junk2, EmptyIndex());
      MadeIs(Dev(disk0, used0), i, r, y);
      if room {
        RoomIs(i, length);
        CreatedSound(Dev(disk0, used0), inodes, index, table, i, isDir, r, y);
        BackedNew(inodes, memory, disk0, i, r.d, r.dev.disk);
      }
      CleanIs();
      cache.disk := r.dev.disk[i := Image(r.d)];
      used := r.dev.used;
      inodes := inodes[i := r.d];
      index := index[i := y];
      if room { Whole(); }
      CleanIs();
    }

    lemma RoomIs(i: nat, length: nat)
      ensures RoomForNew(i, length) <==> RoomIn(cache.disk, used, cache.table[..], i, length)
    {
      hide RoomIn;
    }

    lemma CleanIs()
      ensures Clean() <==> NoStale(cache.table[..], used)
    {
      hide NoStale;
    }

    /** inode_create in a sector set aside for it: a new file of zero bytes, if there is room. It
        reports success whenever it gets memory, room or not. */
    method Create(i: nat, length: nat, isDir: bool, enough: bool, junk: Table, junk1: Table, junk2: Table)
      returns (success: bool)
      requires Valid() && i !in inodes && InUse(used, {i})
      requires forall j | j in inodes :: i !in Owned(index[j])
      modifies this, cache
      ensures (success <==> enough) && memory == old(memory)
      ensures !enough ==> Valid() && inodes == old(inodes) && index == old(index)
      ensures !enough ==> used == old(used) && cache.disk == old(cache.disk)
      ensures !enough ==> forall j | j in inodes :: Contents(j) == old(Contents(j))
      ensures enough ==> i in inodes && i in index && inodes == old(inodes)[i := inodes[i]] && index == old(index)[i := index[i]]
      ensures enough ==> inodes[i].length == length && inodes[i].isDir == isDir && inodes[i].parent == ROOT_DIR_SECTOR
      ensures enough ==> Made(old(cache.disk), old(used), i, cache.disk, used, inodes[i], index[i])
      ensures |used| == |cache.disk| == old(|used|)
      ensures enough && old(RoomForNew(i, length)) ==>
                && Valid() && (old(Clean()) ==> Clean()) && Grabbed(old(used), EmptyIndex(), index[i], used)
                && (forall j | j in old(inodes) :: Contents(j) == old(Contents(j)))
                && Contents(i) == Zeros(length)
    {
      hide *;
      KeysAgree();
      success := enough;
      if enough {
        CreateNow(i, length, isDir, junk, junk1, junk2);
      }
    }

    /** Freeing a removed inode at its last close: its sectors are given back, and every cached
        sector is still in use exactly if no sector of the file was cached. */
    method Remove(i: nat)
      requires Valid() && i in memory && i in inodes
      modifies this
      ensures Valid() && inodes == old(inodes) - {i} && index == old(index) - {i} && memory == old(memory) - {i}
      ensures Freed(old(used), old(Holding(index, i)), used)
      ensures forall j | j in inodes :: Contents(j) == old(Contents(j))
      ensures old(Clean()) ==> (Clean() <==> forall s: nat | s in old(Holding(index, i)) :: !Resident(cache.table[..], s))
    {
      hide Sound, Coherent, View, FileAt, Rep, Image;
      SoundFile(used, inodes, index, cache.table[..], cache.disk, i);
      assert i in {i};
      var first := Release(used, i);
      StillInUse(used, {i}, first, Owned(index[i]));
      var freed := FreeInode(first, cache.disk, memory[i], index[i]);
      FreedCompose(used, {i}, first, Owned(index[i]), freed);
      assert {i} + Owned(index[i]) == Holding(index, i);
      SoundRemove(used, inodes, index, cache.table[..], cache.disk, i, Holding(index, i), freed);
      used := freed;
      memory := memory - {i};
      inodes := inodes - {i};
      index := index - {i};
    }

    /** The way out of filesys_create once the inode has been created: only the sector of the inode
        is given back. */
    method Abandon(i: nat)
      requires i in inodes && i !in memory && i < |used| && used[i]
      modifies this`used, this`inodes, this`index
      ensures inodes == old(inodes) - {i} && index == old(index) - {i} && Freed(old(used), {i}, used)
      ensures old(Valid()) ==> Valid() && forall j | j in inodes :: Contents(j) == old(Contents(j))
    {
      hide *;
      ghost var valid, inodes0, used0 := Valid(), inodes, used;
      if valid {
        Parts();
        KeysAgree();
      }
      var freed := Release(used, i);
      if valid {
        assert {i} <= Holding(index, i) by { InHolding(index, i); }
        SoundRemove(used, inodes, index, cache.table[..], cache.disk, i, {i}, freed);
        BackedLess(inodes, memory, cache.disk, i);
        FreedSize(used, {i}, freed);
      }
      used := freed;
      inodes := inodes - {i};
      index := index - {i};
      if valid { Whole(); }
    }

    /** free_map_allocate of one sector. */
    method Allocate() returns (r: Option<nat>)
      requires Valid()
      modifies this`used
      ensures Valid() && forall j | j in inodes :: Contents(j) == old(Contents(j))
      ensures r.None? ==> used == old(used) && forall s | 0 <= s < |used| :: used[s]
      ensures r.Some? ==> r.value < |used| == old(|used|) && !old(used)[r.value] && used == old(used)[r.value := true]
                          && forall s | 0 <= s < r.value :: old(used)[s]
    {
      hide Sound, Coherent, View, FileAt, Rep, Image;
      var s := FirstFree(used, 0);
      if s == |used| {
        return None;
      }
      SoundMark(used, inodes, index, cache.table[..], cache.disk, s, true);
      used := used[s := true];
      return Some(s);
    }

    /** free_map_release of a sector that belongs to no file. */
    method GiveBack(s: nat)
      requires Valid() && s < |used| && used[s] && forall j | j in index :: s !in Holding(index, j)
      modifies this`used
      ensures Valid() && used == old(used)[s := false] && forall j | j in inodes :: Contents(j) == old(Contents(j))
    {
      hide Sound, Coherent, View, FileAt, Rep, Image;
      SoundMark(used, inodes, index, cache.table[..], cache.disk, s, false);
      used := used[s := false];
    }
  }

  lemma InsideIs(used: seq<bool>, i: nat)
    requires InUse(used, {i})
    ensures i < |used|
  {
    assert i in {i};
  }

  lemma MadeIs(dev: Dev, i: nat, r: Grown, y: Index)
    requires Outcome(dev, EmptyIndex(), r, y, SectorCount(r.d.length)) && i < |r.dev.disk|
    ensures Made(dev.disk, dev.used, i, r.dev.disk[i := Image(r.d)], r.dev.used, r.d, y)
  {
    hide Outcome, Image, Grew;
    GrewIs(dev, EmptyIndex(), r, y, SectorCount(r.d.length));
    assert MadeFrom(dev.disk, dev.used, i, r.dev.disk, r.dev.disk[i := Image(r.d)], r.dev.used, r.d, y);
  }

  lemma BackedGrown(inodes: Inodes, memory: Inodes, disk: seq<Block>, i: nat, d: InodeDisk, disk': seq<Block>)
    requires Backed(inodes, memory, disk) && InodesKept(inodes, disk, disk') && i in memory
    ensures Backed(inodes[i := d], memory[i := d], disk')
  {
    hide Image;
  }

  lemma BackedNew(inodes: Inodes, memory: Inodes, disk: seq<Block>, i: nat, d: InodeDisk, disk': seq<Block>)
    requires Backed(inodes, memory, disk) && i !in inodes && i < |disk'| && InodesKept(inodes, disk, disk'[i := Image(d)])
    ensures Backed(inodes[i := d], memory, disk'[i := Image(d)])
  {
    hide Image;
  }

  lemma BackedLess(inodes: Inodes, memory: Inodes, disk: seq<Block>, i: nat)
    requires Backed(inodes, memory, disk)
    ensures Backed(inodes - {i}, memory - {i}, disk) && (i !in memory ==> memory - {i} == memory)
  {
    hide Image;
  }

  lemma FreedSize(used: seq<bool>, f: set<nat>, freed: seq<bool>)
    requires Freed(used, f, freed)
    ensures |freed| == |used|
  {
  }

  /** inode_create gives no sector back. */
  lemma MadeKeeps(disk: seq<Block>, used: seq<bool>, i: nat, disk': seq<Block>, used': seq<bool>, d: InodeDisk, y: Index, s: nat)
    requires Made(disk, used, i, disk', used', d, y) && s < |used| && used[s]
    ensures s < |used'| == |used| && used'[s]
  {
    hide Image, Outcome;
    var mid: seq<Block> :| MadeFrom(disk, used, i, mid, disk', used', d, y);
    KeepsUsed(Dev(disk, used), EmptyIndex(), Grown(Dev(mid, used'), d), y, SectorCount(d.length), s);
  }

  lemma BackedInode(inodes: Inodes, memory: Inodes, index: Indexes, disk: seq<Block>, j: nat)
    requires Backed(inodes, memory, disk) && j in inodes && j !in memory && j in index
    requires Rep(inodes[j], disk, index[j]) && |index[j].data| == SectorCount(inodes[j].length)
    ensures j < |disk| && InodeOf(disk[j]) == inodes[j]
  {
    hide Image, InodeOf, Rep;
    RepStorable(inodes[j], disk, index[j]);
    ImageRoundTrip(inodes[j]);
  }

  lemma EmptyLength(isDir: bool)
    ensures EmptyInode(isDir).length == 0 == SectorCount(EmptyInode(isDir).length) && EmptyInode(isDir).isDir == isDir
    ensures EmptyInode(isDir).parent == ROOT_DIR_SECTOR && EmptyIndex().data == []
  {
  }

  lemma EmptyExtended(n: nat)
    ensures ZeroExtended([], n) == Zeros(n)
  {
  }

  lemma EmptyRep(isDir: bool, disk: seq<Block>, view: seq<Block>)
    ensures Rep(EmptyInode(isDir), disk, EmptyIndex()) && TableSet(EmptyIndex()) == {}
    ensures PaddedOne(EmptyInode(isDir), EmptyIndex(), view) && FileBytes(EmptyInode(isDir), EmptyIndex(), view) == []
  {
  }

  /** A new, empty file. */
  lemma SoundEmpty(used: seq<bool>, inodes: Inodes, index: Indexes, table: seq<Entry>, disk: seq<Block>, i: nat, isDir: bool)
    requires Sound(used, inodes, index, table, disk) && i !in inodes && InUse(used, {i}) && !Resident(table, i)
    requires forall j | j in inodes :: i !in Owned(index[j])
    ensures Sound(used, inodes[i := EmptyInode(isDir)], index[i := EmptyIndex()], table, disk)
    ensures FileAt(inodes[i := EmptyInode(isDir)], index[i := EmptyIndex()], table, disk, i) == []
    ensures forall j | j in inodes ::
        FileAt(inodes[i := EmptyInode(isDir)], index[i := EmptyIndex()], table, disk, j) == FileAt(inodes, index, table, disk, j)
  {
    hide Coherent, View, Rep, FileBytes, PaddedOne, InUse, Owned, TableSet;
    EmptyRep(isDir, disk, View(table, disk));
    LayoutEmpty(used, inodes, index, i, isDir);
    QuietEmpty(index, table, i);
    MappedUpdate(inodes, index, i, EmptyInode(isDir), EmptyIndex(), disk);
  }

  lemma QuietEmpty(index: Indexes, table: seq<Entry>, i: nat)
    requires Quiet(index, table) && i !in index && !Resident(table, i)
    ensures Quiet(index[i := EmptyIndex()], table)
  {
    var after := index[i := EmptyIndex()];
    assert TableSet(EmptyIndex()) == {};
    assert forall j | j in index :: Private(after, j) == Private(index, j);
  }

  lemma LayoutEmpty(used: seq<bool>, inodes: Inodes, index: Indexes, i: nat, isDir: bool)
    requires Layout(used, inodes, index) && i !in inodes && InUse(used, {i})
    requires forall j | j in inodes :: i !in Owned(index[j])
    ensures Layout(used, inodes[i := EmptyInode(isDir)], index[i := EmptyIndex()])
  {
    assert Owned(EmptyIndex()) == {};
    LayoutUpdate(used, inodes, index, i, EmptyInode(isDir), EmptyIndex());
  }

  lemma RemovedApart(used: seq<bool>, inodes: Inodes, index: Indexes, i: nat, f: set<nat>, freed: seq<bool>, j: nat)
    requires Layout(used, inodes, index) && i in index && f <= Holding(index, i) && Freed(used, f, freed)
    requires j in index && j != i
    ensures InUse(freed, Holding(index, j)) && Holding(index - {i}, j) == Holding(index, j)
  {
    LayoutApart(used, inodes, index, i, j);
  }

  lemma LayoutRemove(used: seq<bool>, inodes: Inodes, index: Indexes, i: nat, f: set<nat>, freed: seq<bool>)
    requires Layout(used, inodes, index) && i in index && f <= Holding(index, i) && Freed(used, f, freed)
    ensures Layout(freed, inodes - {i}, index - {i})
  {
    hide InUse, Freed, Holding, Owned;
    forall j | j in index && j != i
      ensures InUse(freed, Holding(index, j)) && Holding(index - {i}, j) == Holding(index, j)
    {
      RemovedApart(used, inodes, index, i, f, freed, j);
    }
  }

  /** Without file i, whose sectors f were given back. */
  lemma SoundRemove(used: seq<bool>, inodes: Inodes, index: Indexes, table: seq<Entry>, disk: seq<Block>, i: nat, f: set<nat>,
                    freed: seq<bool>)
    requires Sound(used, inodes, index, table, disk) && i in inodes && i in index && f <= Holding(index, i) && Freed(used, f, freed)
    ensures Sound(freed, inodes - {i}, index - {i}, table, disk)
    ensures forall j | j in inodes && j != i ::
        FileAt(inodes - {i}, index - {i}, table, disk, j) == FileAt(inodes, index, table, disk, j)
  {
    hide Coherent, View, Rep, Layout;
    LayoutRemove(used, inodes, index, i, f, freed);
  }

  /** Only the sectors of files matter to the layout. */
  lemma LayoutUsed(used: seq<bool>, inodes: Inodes, index: Indexes, used': seq<bool>)
    requires Layout(used, inodes, index) && forall i | i in index :: InUse(used', Holding(index, i))
    ensures Layout(used', inodes, index)
  {
    hide InUse, Holding, Owned, SectorCount;
  }

  lemma StaysInUse(used: seq<bool>, inodes: Inodes, index: Indexes, s: nat, b: bool, i: nat)
    requires Layout(used, inodes, index) && s < |used| && i in index && (b || s !in Holding(index, i))
    ensures InUse(used[s := b], Holding(index, i))
  {
    assert InUse(used, Holding(index, i));
  }

  /** A sector that belongs to no file is taken or given back. */
  lemma SoundMark(used: seq<bool>, inodes: Inodes, index: Indexes, table: seq<Entry>, disk: seq<Block>, s: nat, b: bool)
    requires Sound(used, inodes, index, table, disk) && s < |used| && (b || forall i | i in index :: s !in Holding(index, i))
    ensures Sound(used[s := b], inodes, index, table, disk)
  {
    hide Coherent, View, Padded, Layout, Mapped, Quiet, Holding, InUse;
    forall i | i in index
      ensures InUse(used[s := b], Holding(index, i))
    {
      StaysInUse(used, inodes, index, s, b, i);
    }
    LayoutUsed(used, inodes, index, used[s := b]);
  }

  lemma SoundCache(used: seq<bool>, inodes: Inodes, index: Indexes, table: seq<Entry>, disk: seq<Block>)
    requires Sound(used, inodes, index, table, disk)
    ensures Coherent(table, disk)
  {
  }

  /** Writing blocks back, with or without emptying the cache. */
  lemma SoundSync(used: seq<bool>, inodes: Inodes, index: Indexes, table: seq<Entry>, disk: seq<Block>,
                  table': seq<Entry>, disk': seq<Block>)
    requires Sound(used, inodes, index, table, disk) && Coherent(table', disk') && View(table', disk') == View(table, disk)
    requires forall s: nat | Resident(table', s) :: Resident(table, s)
    ensures Sound(used, inodes, index, table', disk') && (NoStale(table, used) ==> NoStale(table', used))
    ensures InodesKept(inodes, disk, disk')
    ensures forall j | j in inodes :: FileAt(inodes, index, table', disk', j) == FileAt(inodes, index, table, disk, j)
  {
    hide Coherent, FileBytes, Layout, Rep, TableSet, PaddedOne, Sector;
    assert |disk'| == |View(table', disk')| == |disk|;
    forall i | i in index
      ensures |disk| !in Private(index, i)
    {
      TablesInside(inodes[i], disk, index[i]);
      LayoutAt(used, inodes, index, i);
    }
    CacheKeeps(inodes, index, table, disk, table', disk', |disk|);
  }

  lemma SoundFile(used: seq<bool>, inodes: Inodes, index: Indexes, table: seq<Entry>, disk: seq<Block>, i: nat)
    requires Sound(used, inodes, index, table, disk) && i in inodes
    ensures |used| == |disk| <= 0x1_0000_0000 && i in index && |index[i].data| == SectorCount(inodes[i].length)
    ensures inodes.Keys == index.Keys
    ensures Rep(inodes[i], disk, index[i]) && InUse(used, Owned(index[i])) && NoDup(index[i].data)
    ensures InUse(used, {i}) && i !in Owned(index[i])
  {
    LayoutAt(used, inodes, index, i);
  }
}

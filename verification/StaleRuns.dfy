/** Two runs of a mounted file system in which the block of a removed file comes back: one spoils the
    bytes of a new file, the other the inode of one. */
module StaleRuns {
  import opened Common
  import opened Cache
  import opened Sectors
  import opened Inode
  import opened Plans
  import opened Growth
  import opened Grow
  import opened Free
  import opened FileSystem
  import opened Volumes
  import opened Mounts
  import opened Stale
  import Files

  /** The free map of a device of four sectors, the first n of them in use. */
  function Marked(n: nat): seq<bool> {
    [0 < n, 1 < n, 2 < n, 3 < n]
  }

  lemma FirstFreeIs(n: nat)
    requires n < 4
    ensures FirstFree(Marked(n), 0) == n && Marked(n)[n := true] == Marked(n + 1) && SomeFreeSector(Marked(n))
  {
    var s := FirstFree(Marked(n), 0);
    assert !Marked(n)[n];
    assert forall i | 0 <= i < n :: Marked(n)[i];
  }

  lemma OneFree(disk: seq<Block>)
    requires |disk| == 4
    ensures Fits(Dev(disk, Marked(3)), 0, 1)
  {
    assert FreeSet(Marked(3)) == {3};
  }

  /** Room for a file without data. */
  lemma EmptyRoom(disk: seq<Block>, used: seq<bool>, table: seq<Entry>, i: nat)
    requires |disk| == |used| <= 0x1_0000_0000 && !Resident(table, i)
    ensures RoomIn(disk, used, table, i, 0)
  {
    assert SectorCount(0) == 0 && Take(used, 0) == [];
  }

  lemma MoreInUse(table: seq<Entry>, n: nat, n': nat)
    requires NoStale(table, Marked(n)) && n <= n' <= 4
    ensures NoStale(table, Marked(n')) && forall s | n <= s < 4 :: !Resident(table, s)
  {
  }

  /** A file created without data has no sector but that of its inode. */
  lemma MadeEmpty(disk: seq<Block>, used: seq<bool>, i: nat, disk': seq<Block>, used': seq<bool>, d: InodeDisk, y: Index)
    requires Made(disk, used, i, disk', used', d, y) && d.length == 0
    ensures used' == used && Owned(y) == {} && y.data == [] && i < |disk| && disk' == disk[i := Image(d)]
  {
    hide Made, Image;
    var mid := MadeMid(disk, used, i, disk', used', d, y);
    var dev: Dev, r := Dev(disk, used), Grown(Dev(mid, used'), d);
    assert Fits(dev, 0, 0);
    OutcomeFits(dev, EmptyIndex(), r, y, 0);
    EmptyOwns(d, mid, y);
    assert Owned(EmptyIndex()) == {} && TableSet(EmptyIndex()) == {};
    assert mid == disk;
  }

  lemma MadeMid(disk: seq<Block>, used: seq<bool>, i: nat, disk': seq<Block>, used': seq<bool>, d: InodeDisk, y: Index)
    returns (mid: seq<Block>)
    requires Made(disk, used, i, disk', used', d, y)
    ensures MadeFrom(disk, used, i, mid, disk', used', d, y)
  {
    mid :| MadeFrom(disk, used, i, mid, disk', used', d, y);
  }

  lemma EmptyOwns(d: InodeDisk, disk: seq<Block>, x: Index)
    requires Rep(d, disk, x) && x.data == []
    ensures Owned(x) == {}
  {
  }

  /** A file created with one data sector when sector 3 is the only free one. */
  lemma MadeIn3(disk: seq<Block>, disk': seq<Block>, used': seq<bool>, d: InodeDisk, y: Index)
    requires |disk| == 4 && Made(disk, Marked(3), 2, disk', used', d, y) && d.length == 512
    ensures |disk'| == 4 && ByteToSector(d, disk', 0) == Some(3)
  {
    hide Made, Image, Marked, ByteToSector;
    var mid := MadeMid(disk, Marked(3), 2, disk', used', d, y);
    assert |Marked(3)| == 4 by { MarkedSize(3); }
    var dev: Dev, r := Dev(disk, Marked(3)), Grown(Dev(mid, used'), d);
    assert SectorCount(512) == 1;
    OneFree(disk);
    OutcomeFits(dev, EmptyIndex(), r, y, 1);
    Only3(dev, r.dev, d, y);
    ByteToSectorFinds(d, mid, y, 0);
    DirectLookup(d, mid, disk');
  }

  lemma MarkedSize(n: nat)
    ensures |Marked(n)| == 4
  {
  }

  lemma Only3(dev: Dev, r: Dev, d: InodeDisk, y: Index)
    requires dev.used == Marked(3) && Extends(dev, EmptyIndex(), r, d, y) && |y.data| == 1
    ensures y.data[0] == 3 && Rep(d, r.disk, y)
  {
    hide Rep, FreeCount, Need;
    assert Owned(EmptyIndex()) == {} && y.data[0] in Owned(y) - Owned(EmptyIndex());
    assert dev.used[0] && dev.used[1] && dev.used[2];
  }

  /** The first sector of a file is found without its tables. */
  lemma DirectLookup(d: InodeDisk, disk: seq<Block>, disk': seq<Block>)
    requires 0 < d.length <= 16525 * 512
    ensures ByteToSector(d, disk', 0) == ByteToSector(d, disk, 0)
  {
  }

  /** A file that grew from nothing to one sector, sector 3 being the only free one. */
  lemma GrabbedIn3(x: Index, y: Index, used': seq<bool>)
    requires Grabbed(Marked(3), x, y, used') && Owned(x) == {} && |y.data| > 0
    ensures y.data[0] == 3 && Owned(y) == {3} && used' == Marked(4)
  {
    var used := Marked(3);
    assert used[0] && used[1] && used[2];
    forall s | s in Owned(y)
      ensures s == 3
    {
      assert s in Owned(y) - Owned(x);
    }
    assert y.data[0] in Owned(y);
  }

  lemma FreedBoth(index: Indexes, used': seq<bool>)
    requires 2 in index && Owned(index[2]) == {3} && Freed(Marked(4), Holding(index, 2), used')
    ensures used' == Marked(2)
  {
  }

  /** The byte written. */
  lemma ByteShown(inodes: Inodes, index: Indexes, table: seq<Entry>, disk: seq<Block>, at: nat)
    requires Padded(inodes, index, View(table, disk)) && 2 in inodes && |index[2].data| > 0 && at < 512
    requires FileAt(inodes, index, table, disk, 2) == Splice(ZeroExtended([], at + 1), at, [1])
    ensures index[2].data[0] < |disk| && View(table, disk)[index[2].data[0]][at] == 1
  {
    hide View, Splice, ZeroExtended, Bytes, Inside;
    assert PaddedOne(inodes[2], index[2], View(table, disk));
    OneByte(at);
    FirstSector(View(table, disk), index[2].data, inodes[2].length, at);
  }

  lemma OneByte(at: nat)
    ensures |ZeroExtended([], at + 1)| == at + 1
    ensures |Splice(ZeroExtended([], at + 1), at, [1])| == at + 1 && Splice(ZeroExtended([], at + 1), at, [1])[at] == 1
  {
    hide Splice, ZeroExtended;
  }

  lemma FirstSector(view: seq<Block>, data: seq<Word>, n: nat, at: nat)
    requires Inside(data, |view|) && |data| > 0 && at < 512 && at < n <= 512 * |data|
    ensures data[0] < |view| && view[data[0]][at] == Bytes(view, data)[..n][at]
  {
    hide Bytes;
    var b := Bytes(view, data);
    assert b[at] == view[data[at / 512]][at % 512];
    assert at / 512 == 0 && at % 512 == at;
  }

  lemma PendingIsCached(table: seq<Entry>, disk: seq<Block>, disk': seq<Block>, s: nat)
    requires Pending(table, s) && s < |disk| == |disk'|
    ensures View(table, disk')[s] == View(table, disk)[s] && Resident(table, s)
  {
    var j :| Holds(table, j, s) && table[j].dirty;
  }

  lemma PendingKeeps(table: seq<Entry>, disk: seq<Block>, s: nat, b: Block)
    requires Coherent(table, disk) && Pending(table, s) && s < |disk|
    ensures Coherent(table, disk[s := b])
  {
    var j :| Holds(table, j, s) && table[j].dirty;
    assert forall k | 0 <= k < |table| && table[k].occupied && table[k].sector == s :: Holds(table, k, s);
  }

  // ----- The runs -----

  lemma RoomForEmpty(m: Mount, n: nat)
    requires m.vol.used == Marked(n) && n < 4 && |m.vol.cache.disk| == 4 && !Resident(m.vol.cache.table[..], n)
    ensures m.RoomToCreate(0)
  {
    hide RoomIn, Marked, Resident;
    FirstFreeIs(n);
    MarkedSize(n);
    MarkedSize(n + 1);
    EmptyRoom(m.vol.cache.disk, Marked(n + 1), m.vol.cache.table[..], n);
  }

  lemma RoomForByte(m: Mount, at: nat)
    requires m.vol.used == Marked(3) && |m.vol.cache.disk| == 4 && m.vol.Clean() && at < 512
    requires 2 in m.vol.inodes && m.vol.inodes[2].length == 0
    ensures m.CanWrite(2, at + 1)
  {
    hide Marked, NoStale, Fits, FreshUnseen;
    MarkedSize(3);
    assert SectorCount(0) == 0 && SectorCount(at + 1) == 1;
    OneFree(m.vol.cache.disk);
    CleanUnseen(m.vol.used, m.vol.cache.table[..], 0, 1);
  }

  lemma NotCached(m: Mount, i: nat)
    requires m.vol.Valid() && i in m.vol.inodes
    ensures !Resident(m.vol.cache.table[..], i)
  {
    hide Coherent, View, Rep, Layout, Padded, Resident;
    assert i in Private(m.vol.index, i);
  }

  /** A new mount on a device of four sectors, and on it an empty file with its inode in sector 2. */
  method EmptyFile(junk: Table, junk1: Table, junk2: Table) returns (m: Mount)
    ensures fresh(m) && fresh(m.files) && fresh(m.vol) && fresh(m.vol.cache) && fresh(m.vol.cache.table)
    ensures m.Valid() && m.files.handles == map[] && m.vol.Clean() && m.vol.used == Marked(3) && |m.vol.cache.disk| == 4
    ensures m.vol.inodes.Keys == {2} && m.Contents(2) == [] && m.vol.inodes[2].length == 0
    ensures 2 in m.vol.index && Owned(m.vol.index[2]) == {}
  {
    hide *;
    MarkedSize(2);
    FirstFreeIs(2);
    m := new Mount(seq(4, _ => ZeroBlock()), Marked(2));
    m.Parts();
    m.vol.KeysAgree();
    m.vol.CleanIs();
    MoreInUse(m.vol.cache.table[..], 2, 3);
    RoomForEmpty(m, 2);
    ghost var disk := m.vol.cache.disk;
    var r := m.Create(0, false, true, true, junk, junk1, junk2);
    CreatedMade(m, disk, Marked(2), map[], 2, 0);
    MadeEmpty(disk, Marked(3), 2, m.vol.cache.disk, m.vol.used, m.vol.inodes[2], m.vol.index[2]);
    m.vol.CleanIs();
  }

  lemma CreatedMade(m: Mount, disk: seq<Block>, used: seq<bool>, inodes: Inodes, i: nat, length: nat)
    requires m.CreatedAt(disk, used, inodes, i, length, false)
    ensures i < |used| && i in m.vol.inodes && i in m.vol.index && m.vol.inodes == inodes[i := m.vol.inodes[i]]
    ensures m.vol.inodes[i].length == length
    ensures Made(disk, used[i := true], i, m.vol.cache.disk, m.vol.used, m.vol.inodes[i], m.vol.index[i])
  {
    hide Made;
  }

  /** The byte 1 is written to it, which goes to sector 3. */
  method OneByteFile(at: nat, junk: Table, junk1: Table, junk2: Table) returns (m: Mount, h: nat)
    requires at < 512
    ensures fresh(m) && fresh(m.files) && fresh(m.vol) && fresh(m.vol.cache) && fresh(m.vol.cache.table)
    ensures m.Valid() && m.files.handles == map[h := Files.Handle(2, false)] && |m.vol.cache.disk| == 4
    ensures m.vol.inodes.Keys == {2} && 2 in m.vol.index && Owned(m.vol.index[2]) == {3} && m.vol.used == Marked(4)
    ensures Pending(m.vol.cache.table[..], 3) && m.vol.cache.Contents()[3][at] == 1
  {
    hide *;
    m := EmptyFile(junk, junk1, junk2);
    m.vol.CleanIs();
    var r := m.Open(2, true, true);
    h := r.value;
    m.Parts();
    m.vol.KeysAgree();
    MarkedSize(3);
    m.vol.CleanIs();
    RoomForByte(m, at);
    NoneDenied(m.files.handles, h);
    ghost var index := m.vol.index;
    var n := m.Write(h, [1], at, junk, junk1, junk2);
    OneByteThere(m, index, at);
  }

  lemma NoneDenied(handles: Files.Handles, h: nat)
    requires h in handles && handles == map[h := Files.Handle(2, false)]
    ensures !Denied(handles, 2)
  {
  }

  lemma OneByteThere(m: Mount, index: Indexes, at: nat)
    requires m.Valid() && m.vol.inodes.Keys == {2} && 2 in index && Owned(index[2]) == {} && at < 512
    requires m.WroteTo(Marked(3), index, 2, at, 1) && m.Contents(2) == AfterWrite([], false, at, [1])
    ensures 2 in m.vol.index && Owned(m.vol.index[2]) == {3} && m.vol.used == Marked(4)
    ensures |m.vol.cache.disk| == 4 && Pending(m.vol.cache.table[..], 3) && m.vol.cache.Contents()[3][at] == 1
  {
    hide *;
    m.Parts();
    m.vol.Parts();
    m.vol.FileHolds(2);
    assert m.vol.Contents(2) == Splice(ZeroExtended([], at + 1), at, [1]) by { AfterWriteIs([], 0, at, [1]); }
    WroteParts(m, index, at);
    GrabbedIn3(index[2], m.vol.index[2], m.vol.used);
    MarkedSize(4);
    ByteShown(m.vol.inodes, m.vol.index, m.vol.cache.table[..], m.vol.cache.disk, at);
    CacheContents(m.vol.cache);
  }

  lemma WroteParts(m: Mount, index: Indexes, at: nat)
    requires m.WroteTo(Marked(3), index, 2, at, 1) && at < 512
    ensures 2 in index && 2 in m.vol.index && Grabbed(Marked(3), index[2], m.vol.index[2], m.vol.used)
    ensures |m.vol.index[2].data| > 0 && Pending(m.vol.cache.table[..], m.vol.index[2].data[0])
  {
    hide Grabbed, Pending;
    assert at / 512 == 0;
  }

  lemma CacheContents(cache: BufferCache)
    ensures cache.Contents() == View(cache.table[..], cache.disk)
  {
    hide View;
  }

  lemma CacheIs(cache: BufferCache)
    requires cache.table.Length == CACHE_SIZE && Coherent(cache.table[..], cache.disk)
    ensures cache.Valid()
  {
    hide Coherent;
  }

  /** Then the file is removed and closed, and only the block of sector 3 is left of it in the cache. */
  method RemovedFile(at: nat, junk: Table, junk1: Table, junk2: Table) returns (m: Mount)
    requires at < 512
    ensures fresh(m) && fresh(m.files) && fresh(m.vol) && fresh(m.vol.cache) && fresh(m.vol.cache.table)
    ensures m.Valid() && m.vol.inodes == map[] && m.vol.used == Marked(2) && |m.vol.cache.disk| == 4
    ensures Pending(m.vol.cache.table[..], 3) && !Resident(m.vol.cache.table[..], 2) && m.vol.cache.Contents()[3][at] == 1
  {
    hide *;
    var h;
    m, h := OneByteFile(at, junk, junk1, junk2);
    m.Parts();
    NotCached(m, 2);
    m.HandleFile(h);
    ghost var index, disk, table := m.vol.index, m.vol.cache.disk, m.vol.cache.table[..];
    CacheContents(m.vol.cache);
    m.Remove(2);
    m.Close(h);
    assert Files.Openers(m.files.handles, 2) == {} by { NoOpeners(m.files.handles); }
    FreedBoth(index, m.vol.used);
    CacheContents(m.vol.cache);
  }

  lemma NoOpeners(handles: Files.Handles)
    requires handles == map[]
    ensures Files.Openers(handles, 2) == {}
  {
  }

  /** A file of 512 bytes created next takes the same two sectors, and its first byte is not zero. */
  method StaleBytes(junk: Table, junk1: Table, junk2: Table) returns (m: Mount)
    ensures 2 in m.vol.inodes && m.vol.inodes[2].length == 512
    ensures ByteToSector(m.vol.inodes[2], m.vol.cache.disk, 0) == Some(3)
    ensures |m.vol.cache.disk| == 4 && m.vol.cache.Contents()[3][0] == 1
  {
    hide *;
    m := RemovedFile(0, junk, junk1, junk2);
    ghost var disk := m.vol.cache.disk;
    CacheContents(m.vol.cache);
    FirstFreeIs(2);
    var r := m.Create(512, false, true, true, junk, junk1, junk2);
    CreatedMade(m, disk, Marked(2), map[], 2, 512);
    MadeIn3(disk, m.vol.cache.disk, m.vol.used, m.vol.inodes[2], m.vol.index[2]);
    PendingIsCached(m.vol.cache.table[..], disk, m.vol.cache.disk, 3);
    CacheContents(m.vol.cache);
  }

  /** Two empty files created next take one sector each for their inodes. After a write-back the
      inode of the second one is gone: what is in its sector has another length. */
  method StaleInode(junk: Table, junk1: Table, junk2: Table) returns (m: Mount)
    ensures 3 in m.vol.inodes && 3 !in m.vol.memory && m.vol.inodes[3].length == 0
    ensures |m.vol.cache.disk| == 4 && InodeOf(m.vol.cache.disk[3]).length != 0
  {
    hide *;
    m := RemovedFile(84, junk, junk1, junk2);
    ghost var disk := m.vol.cache.disk;
    CacheContents(m.vol.cache);
    FirstFreeIs(2);
    RoomForEmpty(m, 2);
    var r := m.Create(0, false, true, true, junk, junk1, junk2);
    CreatedMade(m, disk, Marked(2), map[], 2, 0);
    MadeEmpty(disk, Marked(3), 2, m.vol.cache.disk, m.vol.used, m.vol.inodes[2], m.vol.index[2]);
    m.Parts();
    m.vol.Parts();
    ghost var disk', inodes := m.vol.cache.disk, m.vol.inodes;
    SoundCache(m.vol.used, inodes, m.vol.index, m.vol.cache.table[..], disk');
    FirstFreeIs(3);
    r := m.Create(0, false, true, true, junk, junk1, junk2);
    CreatedMade(m, disk', Marked(3), inodes, 3, 0);
    MadeEmpty(disk', Marked(4), 3, m.vol.cache.disk, m.vol.used, m.vol.inodes[3], m.vol.index[3]);
    PendingKeeps(m.vol.cache.table[..], disk', 3, Image(m.vol.inodes[3]));
    CacheIs(m.vol.cache);
    PendingIsCached(m.vol.cache.table[..], disk, m.vol.cache.disk, 3);
    CacheContents(m.vol.cache);
    m.vol.cache.Writeback(false);
    LengthByte(m.vol.cache.disk[3]);
  }

  /** The byte at 84 is the lowest one of the length. */
  lemma LengthByte(b: Block)
    requires b[84] == 1
    ensures InodeOf(b).length != 0
  {
    assert Words(b)[21] == WordAt(b, 21);
  }
}

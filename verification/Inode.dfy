/** The on-disk inode (src/filesys/inode.c): 13 direct sectors, one indirect table and one
    double-indirect table over a sector allocator. What the three levels of tables mean is an
    `Index`, the plain list of a file's data sectors together with the sectors of its tables;
    growing and freeing are specified by it. Tables and fresh sectors are written straight to
    the device here, as in the source; how that meets the cache is the subject of FileSystem. */
module Inode {
  import opened Common
  import opened Cache
  import opened Sectors

  const DIRECT: nat := 13
  const SINGLE: nat := 13 + 128                      // sectors reachable without the double table
  const MAX_DOUBLE: nat := 16384
  const CAPACITY: nat := 13 + 128 + 16384

  type Blocks = b: seq<Word> | |b| == 15 witness seq(15, _ => 0)

  /** struct inode_disk, without the unused fields. */
  datatype InodeDisk = InodeDisk(
    blocks: Blocks,
    parent: Word,
    isDir: bool,
    direct: nat,
    indirect: nat,
    dbl: nat,
    length: nat)

  /** bytes_to_sectors */
  function SectorCount(length: nat): (n: nat)
    ensures length <= 512 * n < length + 512
  {
    (length + 511) / 512
  }

  // ----- What the tables of an inode mean -----

  /** The data sectors of a file in order, its indirect and double-indirect table, and the
      second-level tables the latter lists. */
  datatype Index = Index(data: seq<Word>, ind: Word, dbl: Word, groups: seq<Word>)

  /** The number of second-level tables for n data sectors. */
  function GroupCount(n: nat): (g: nat) {
    if n <= SINGLE then 0 else (n - SINGLE + 127) / 128
  }

  function Min(a: int, b: int): (m: int) {
    if a < b then a else b
  }

  function Clamp(a: int, hi: nat): (m: nat) {
    if a < 0 then 0 else if a < hi then a else hi
  }

  /** The counters for n data sectors. */
  ghost predicate Counts(d: InodeDisk, n: nat) {
    && n <= CAPACITY
    && d.direct == Clamp(n, DIRECT)
    && d.indirect == Clamp(n - DIRECT, TABLE_SIZE)
    && d.dbl == Clamp(n - SINGLE, MAX_DOUBLE)
  }

  /** The sector of data sector k, read off the given tables. */
  ghost predicate Maps(blocks: Blocks, t1: Table, groups: seq<Word>, disk: seq<Block>, k: nat, s: Word) {
    if k < DIRECT then blocks[k] == s
    else if k < SINGLE then t1[k - DIRECT] == s
    else
      && (k - SINGLE) / 128 < |groups|
      && groups[(k - SINGLE) / 128] < |disk|
      && Words(disk[groups[(k - SINGLE) / 128]])[(k - SINGLE) % 128] == s
  }

  /** `x` is described by the inode's blocks, an indirect table t1 and a first-level table l1. */
  ghost predicate Describes(blocks: Blocks, t1: Table, l1: Table, disk: seq<Block>, x: Index) {
    var n := |x.data|;
    && n <= CAPACITY && |x.groups| == GroupCount(n)
    && (n > DIRECT ==> blocks[13] == x.ind)
    && (n > SINGLE ==> blocks[14] == x.dbl)
    && (forall g | 0 <= g < |x.groups| && g < TABLE_SIZE :: l1[g] == x.groups[g])
    && (forall k | 0 <= k < n :: Maps(blocks, t1, x.groups, disk, k, x.data[k]))
  }

  ghost function DataSet(x: Index): (r: set<nat>) {
    set s | s in x.data
  }

  /** The sectors that hold tables. */
  ghost function TableSet(x: Index): (r: set<nat>) {
    (if |x.data| > DIRECT then {x.ind} else {}) +
    (if |x.data| > SINGLE then {x.dbl} else {}) +
    (set s | s in x.groups)
  }

  ghost function Owned(x: Index): (r: set<nat>) {
    DataSet(x) + TableSet(x)
  }

  /** No sector plays two parts in the file. */
  ghost predicate Separated(x: Index) {
    && NoDup(x.data) && NoDup(x.groups)
    && DataSet(x) !! TableSet(x)
    && (|x.data| > SINGLE ==> x.ind != x.dbl)
    && (|x.data| > DIRECT ==> x.ind !in x.groups)
    && (|x.data| > SINGLE ==> x.dbl !in x.groups)
  }

  ghost predicate InUse(used: seq<bool>, s: set<nat>) {
    forall x | x in s :: x < |used| && used[x]
  }

  /** The inode and the device describe the file with index `x`. */
  ghost predicate Rep(d: InodeDisk, disk: seq<Block>, x: Index) {
    && Counts(d, |x.data|)
    && Separated(x)
    && (forall s | s in Owned(x) :: s < |disk|)
    && Describes(d.blocks, Words(Get(disk, x.ind)), Words(Get(disk, x.dbl)), disk, x)
  }

  const ROOT_DIR_SECTOR: Word := 1

  /** A new inode, before it grows. */
  function EmptyInode(isDir: bool): InodeDisk {
    InodeDisk(seq(15, _ => 0), ROOT_DIR_SECTOR, isDir, 0, 0, 0, 0)
  }

  ghost function EmptyIndex(): Index {
    Index([], 0, 0, [])
  }

  lemma EmptyDescribed(isDir: bool, disk: seq<Block>)
    ensures Rep(EmptyInode(isDir), disk, EmptyIndex()) && TableSet(EmptyIndex()) == {}
  {
  }

  // ----- The image of an inode in its sector -----

  const INODE_MAGIC: Word := 0x494e_4f44

  /** struct inode_disk as 128 words: the blocks, the parent, the flag with its padding, the three
      counters, the unused start, the length, the magic number and zeros. */
  function ImageWords(d: InodeDisk): (t: Table) {
    var m := 0x1_0000_0000;
    d.blocks + [d.parent, if d.isDir then 1 else 0, d.direct % m, d.indirect % m, d.dbl % m, 0, d.length % m, INODE_MAGIC]
    + seq<Word>(105, _ => 0)
  }

  /** The sector inode_create and inode_close write. */
  function Image(d: InodeDisk): (b: Block) {
    FromWords(ImageWords(d))
  }

  /** What inode_open reads from a sector, whatever is in it. */
  function InodeOf(b: Block): (d: InodeDisk) {
    var w := Words(b);
    InodeDisk(w[..15], w[15], w[16] % 0x100 != 0, w[17], w[18], w[19], w[21])
  }

  /** The counters and the length fit in their fields. */
  ghost predicate Storable(d: InodeDisk) {
    d.direct < 0x1_0000_0000 && d.indirect < 0x1_0000_0000 && d.dbl < 0x1_0000_0000 && d.length < 0x1_0000_0000
  }

  lemma ImageRoundTrip(d: InodeDisk)
    requires Storable(d)
    ensures InodeOf(Image(d)) == d
    ensures var w := Words(Image(d));
            && w[..15] == d.blocks && w[15] == d.parent && w[16] == (if d.isDir then 1 else 0) && w[17] == d.direct
            && w[18] == d.indirect && w[19] == d.dbl && w[21] == d.length && w[22] == INODE_MAGIC
  {
    hide Words, FromWords;
    TableRoundTrip(ImageWords(d));
    assert ImageWords(d)[..15] == d.blocks;
  }

  lemma RepStorable(d: InodeDisk, disk: seq<Block>, x: Index)
    requires Rep(d, disk, x) && |x.data| == SectorCount(d.length)
    ensures Storable(d)
  {
  }

  // ----- byte_to_sector -----

  /** byte_to_sector; None is the -1 the source returns past the end of the file. */
  function ByteToSector(d: InodeDisk, disk: seq<Block>, pos: nat): (r: Option<Word>)
    requires d.length <= 16525 * 512
  {
    if pos >= d.length then None
    else if pos < 13 * 512 then Some(d.blocks[pos / 512])
    else if pos < 141 * 512 then
      var p := pos - 13 * 512;
      var table := Words(Get(disk, d.blocks[p / 65536 + DIRECT]));
      Some(table[p % 65536 / 512])
    else
      var p := pos - 141 * 512;
      var levelOne := Words(Get(disk, d.blocks[14]));
      var levelTwo := Words(Get(disk, levelOne[p / 65536]));
      Some(levelTwo[p % 65536 / 512])
  }

  /** The sector the tables give for data sector k. */
  function Lookup(d: InodeDisk, disk: seq<Block>, k: nat): (s: Word)
    requires k < CAPACITY
  {
    if k < DIRECT then d.blocks[k]
    else if k < SINGLE then Words(Get(disk, d.blocks[13]))[k - DIRECT]
    else Words(Get(disk, Words(Get(disk, d.blocks[14]))[(k - SINGLE) / 128]))[(k - SINGLE) % 128]
  }

  lemma ByteToSectorLooksUp(d: InodeDisk, disk: seq<Block>, pos: nat)
    requires pos < d.length <= 16525 * 512
    ensures ByteToSector(d, disk, pos) == Some(Lookup(d, disk, pos / 512))
  {
    var k := pos / 512;
    if DIRECT <= k < SINGLE {
      var p := pos - 13 * 512;
      assert p / 65536 == 0 && p % 65536 == p && p / 512 == k - DIRECT;
    } else if k >= SINGLE {
      var p := pos - 141 * 512;
      DivTwice(p);
      assert p / 512 == k - SINGLE;
    }
  }

  lemma RepLookup(d: InodeDisk, disk: seq<Block>, x: Index, k: nat)
    requires Rep(d, disk, x) && k < |x.data|
    ensures Lookup(d, disk, k) == x.data[k]
  {
    hide Words, Owned;
    assert Maps(d.blocks, Words(Get(disk, x.ind)), x.groups, disk, k, x.data[k]);
  }

  /** Every byte of the file is found in the data sector the index lists for it. */
  lemma ByteToSectorFinds(d: InodeDisk, disk: seq<Block>, x: Index, pos: nat)
    requires Rep(d, disk, x) && |x.data| == SectorCount(d.length)
    ensures d.length <= 16525 * 512
    ensures ByteToSector(d, disk, pos) == if pos < d.length then Some(x.data[pos / 512]) else None
  {
    if pos < d.length {
      hide Lookup, ByteToSector;
      ByteToSectorLooksUp(d, disk, pos);
      RepLookup(d, disk, x, pos / 512);
    }
  }

  /** Two bytes are in the same sector of the device exactly if they are in the same sector of the
      file. */
  lemma ByteToSectorInjective(d: InodeDisk, disk: seq<Block>, x: Index, p: nat, q: nat)
    requires Rep(d, disk, x) && |x.data| == SectorCount(d.length) && p < d.length && q < d.length
    ensures d.length <= 16525 * 512
    ensures ByteToSector(d, disk, p) == ByteToSector(d, disk, q) <==> p / 512 == q / 512
  {
    ByteToSectorFinds(d, disk, x, p);
    ByteToSectorFinds(d, disk, x, q);
    hide ByteToSector, Describes, Owned, TableSet;
    assert NoDup(x.data);
  }

  lemma DivTwice(p: nat)
    ensures p / 65536 == p / 512 / 128
    ensures p % 65536 / 512 == p / 512 % 128
  {
    var q, r := p / 65536, p % 65536;
    assert p == 512 * (128 * q) + r;
    assert p / 512 == 128 * q + r / 512;
  }

  // ----- inode_grow -----

  datatype Grown = Grown(dev: Dev, d: InodeDisk)

  /** The direct blocks: up to m more. */
  function GrowDirect(dev: Dev, d: InodeDisk, m: nat): (r: Grown)
    requires d.direct + m <= DIRECT
  {
    var f := Fill(dev, d.blocks, d.direct, m);
    Grown(f.dev, d.(blocks := f.table, direct := d.direct + m))
  }

  datatype Opened = Opened(dev: Dev, sector: Word, table: Table)

  /** A table is allocated if it has no entries yet, its array then being uninitialized memory
      `junk`, and read from the device otherwise. */
  function OpenTable(dev: Dev, entries: nat, sector: Word, junk: Table): (r: Opened)
    ensures |r.dev.disk| == |dev.disk|
  {
    if entries == 0 then
      var a := Allocate(dev, sector);
      Opened(a.dev, a.sector, junk)
    else Opened(dev, sector, Words(Get(dev.disk, sector)))
  }

  /** Opening a table, filling m entries from entry i on, and writing the table back. */
  function ExtendTable(dev: Dev, entries: nat, sector: Word, junk: Table, i: nat, m: nat): (r: Opened)
    requires i + m <= TABLE_SIZE
    ensures |r.dev.disk| == |dev.disk|
  {
    var o := OpenTable(dev, entries, sector, junk);
    var f := Fill(o.dev, o.table, i, m);
    Opened(Dev(Put(f.dev.disk, o.sector, FromWords(f.table)), f.dev.used), o.sector, f.table)
  }

  /** The indirect block: m more entries. */
  function GrowIndirect(dev: Dev, d: InodeDisk, m: nat, junk: Table): (r: Grown)
    requires d.indirect + m <= TABLE_SIZE
  {
    var o := ExtendTable(dev, d.indirect, d.blocks[13], junk, d.indirect, m);
    Grown(o.dev, d.(blocks := d.blocks[13 := o.sector], indirect := d.indirect + m))
  }
}

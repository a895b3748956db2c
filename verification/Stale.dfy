/** Growth zeroes sectors and writes tables on the device only, while blocks of files removed
    earlier may still be in the cache over the same sectors. When that does harm. */
module Stale {
  import opened Common
  import opened Cache
  import opened Sectors
  import opened Inode
  import opened Plans
  import opened Growth
  import opened Grow
  import opened Free
  import opened FileSystem
  import opened Volumes

  // ----- What the tables of a file have to hold -----

  /** The words of table sector s list what the file with index y has there. */
  ghost predicate Lists(y: Index, s: nat, w: Table) {
    && (|y.data| > DIRECT && s == y.ind ==> forall k | DIRECT <= k < |y.data| && k < SINGLE :: w[k - DIRECT] == y.data[k])
    && (|y.data| > SINGLE && s == y.dbl ==> forall g | 0 <= g < |y.groups| && g < TABLE_SIZE :: w[g] == y.groups[g])
    && (forall k | SINGLE <= k < |y.data| && InGroup(y, k, s) :: w[(k - SINGLE) % 128] == y.data[k])
  }

  /** Data sector k is listed in the second-level table in sector s. */
  ghost predicate InGroup(y: Index, k: nat, s: nat)
    requires k >= SINGLE
  {
    (k - SINGLE) / 128 < |y.groups| && y.groups[(k - SINGLE) / 128] == s
  }

  lemma RepLists(d: InodeDisk, disk: seq<Block>, y: Index, s: nat)
    requires Rep(d, disk, y) && s in TableSet(y)
    ensures s < |disk| && Lists(y, s, Words(disk[s]))
  {
    hide Words;
    assert s in Owned(y);
    forall k | 0 <= k < |y.data|
      ensures Maps(d.blocks, Words(Get(disk, y.ind)), y.groups, disk, k, y.data[k])
    {
    }
  }

  lemma ListsRep(d: InodeDisk, disk: seq<Block>, y: Index, disk': seq<Block>)
    requires Rep(d, disk, y) && |disk'| == |disk|
    requires forall s | s in TableSet(y) :: s < |disk'| && Lists(y, s, Words(disk'[s]))
    ensures Rep(d, disk', y)
  {
    hide Words;
    assert |y.data| > DIRECT ==> y.ind in TableSet(y);
    assert |y.data| > SINGLE ==> y.dbl in TableSet(y);
    forall k | 0 <= k < |y.data|
      ensures Maps(d.blocks, Words(Get(disk', y.ind)), y.groups, disk', k, y.data[k])
    {
      assert Maps(d.blocks, Words(Get(disk, y.ind)), y.groups, disk, k, y.data[k]);
      if k >= SINGLE {
        var s := y.groups[(k - SINGLE) / 128];
        assert s in TableSet(y) && InGroup(y, k, s);
      }
    }
  }

  // ----- What the cache may do later on its own -----

  datatype Step = Step(slot: nat, drop: bool)

  ghost predicate Allowed(steps: seq<Step>, slots: nat) {
    forall i | 0 <= i < |steps| :: steps[i].slot < slots
  }

  /** The slots after some write-backs and evictions. */
  ghost function Later(c: Slots, steps: seq<Step>): (r: Slots)
    requires Allowed(steps, |c.table|)
    ensures |r.table| == |c.table| && |r.disk| == |c.disk|
    decreases |steps|
  {
    if steps == [] then c
    else
      var n := |steps| - 1;
      Flush(Later(c, steps[..n]), steps[n].slot, steps[n].drop)
  }

  ghost predicate OnceEach(table: seq<Entry>) {
    forall i, j, s | Holds(table, i, s) && Holds(table, j, s) :: i == j
  }

  ghost predicate SlotDrift(e0: Entry, e: Entry, disk: seq<Block>) {
    && (e.occupied ==> e0.occupied && e.sector == e0.sector && e.block == e0.block && (e.dirty ==> e0.dirty))
    && (e0.occupied && e0.dirty && e0.sector < |disk| ==> (e.occupied && e.dirty) || disk[e0.sector] == e0.block)
  }

  /** A dirty slot holds block b over sector s. */
  ghost predicate DirtyOver(table: seq<Entry>, s: nat, b: Block) {
    exists j :: Holds(table, j, s) && table[j].dirty && table[j].block == b
  }

  /** What can have changed: slots are gone or clean, their blocks on the device if they were dirty,
      and nothing else is. */
  ghost predicate Drift(c0: Slots, c: Slots) {
    && |c.table| == |c0.table| && |c.disk| == |c0.disk|
    && (forall j | 0 <= j < |c.table| :: SlotDrift(c0.table[j], c.table[j], c.disk))
    && (forall s | 0 <= s < |c.disk| :: c.disk[s] == c0.disk[s] || DirtyOver(c0.table, s, c.disk[s]))
  }

  lemma DriftStep(c0: Slots, c: Slots, i: nat, drop: bool)
    requires OnceEach(c0.table) && Drift(c0, c) && i < |c.table|
    ensures Drift(c0, Flush(c, i, drop))
  {
    var r, e := Flush(c, i, drop), c.table[i];
    assert SlotDrift(c0.table[i], e, c.disk);
    assert e.occupied ==> Holds(c0.table, i, e.sector);
    forall j | 0 <= j < |c.table|
      ensures SlotDrift(c0.table[j], r.table[j], r.disk)
    {
      assert SlotDrift(c0.table[j], c.table[j], c.disk);
      assert c0.table[j].occupied ==> Holds(c0.table, j, c0.table[j].sector);
    }
  }

  lemma {:induction false} DriftAlways(c: Slots, steps: seq<Step>)
    requires OnceEach(c.table) && Allowed(steps, |c.table|)
    ensures Drift(c, Later(c, steps))
    decreases |steps|
  {
    hide Drift, OnceEach, Flush;
    if steps == [] {
      DriftNone(c);
    } else {
      var n := |steps| - 1;
      DriftAlways(c, steps[..n]);
      DriftStep(c, Later(c, steps[..n]), steps[n].slot, steps[n].drop);
    }
  }

  lemma DriftNone(c: Slots)
    ensures Drift(c, c)
  {
  }

  /** A sector whose clean copy, if there is one, agrees with the device. */
  ghost predicate Steady(c: Slots, s: nat) {
    s < |c.disk| && forall j | Holds(c.table, j, s) :: c.table[j].dirty || c.table[j].block == c.disk[s]
  }

  lemma DriftView(c0: Slots, c: Slots, s: nat)
    requires OnceEach(c0.table) && Drift(c0, c) && Steady(c0, s)
    ensures View(c.table, c.disk)[s] == View(c0.table, c0.disk)[s]
  {
    if Resident(c.table, s) {
      var j :| Holds(c.table, j, s);
      assert SlotDrift(c0.table[j], c.table[j], c.disk) && Holds(c0.table, j, s);
      assert forall k | Holds(c.table, k, s) :: SlotDrift(c0.table[k], c.table[k], c.disk) && Holds(c0.table, k, s);
    } else if Resident(c0.table, s) {
      var j :| Holds(c0.table, j, s);
      assert !Holds(c.table, j, s) && SlotDrift(c0.table[j], c.table[j], c.disk);
      assert forall k | Holds(c0.table, k, s) :: k == j;
    }
  }

  // ----- Growth and stale blocks -----

  /** File i grows from one state of the device to another, to inode d and index y. A file that is
      not in memory is being created. */
  datatype Growing = Growing(
    dev: Dev,
    inodes: Inodes,
    index: Indexes,
    memory: Inodes,
    table: seq<Entry>,
    i: nat,
    after: Dev,
    d: InodeDisk,
    y: Index)

  /** The device in the end: creating a file also writes its inode. */
  ghost function DiskAfter(g: Growing): (disk: seq<Block>) {
    if g.i in g.memory || g.i >= |g.after.disk| then g.after.disk else g.after.disk[g.i := Image(g.d)]
  }

  /** The cache and the device right after the growth. */
  ghost function Start(g: Growing): Slots {
    Slots(g.table, DiskAfter(g))
  }

  /** The state is sound before, except that anything may be in the cache over the sector of the
      inode of a file that is being created, and file i grew by first fit. */
  ghost predicate Grows(g: Growing) {
    && Coherent(g.table, g.dev.disk) && Layout(g.dev.used, g.inodes, g.index) && Mapped(g.inodes, g.index, g.dev.disk)
    && Padded(g.inodes, g.index, View(g.table, g.dev.disk)) && g.i in g.inodes && g.i in g.index
    && QuietBut(g) && BackedBut(g)
    && Plan(g.dev.used, g.index[g.i], g.y) && Extends(g.dev, g.index[g.i], g.after, g.d, g.y)
    && |g.y.data| == SectorCount(g.d.length) && SameKind(g.inodes[g.i], g.d)
  }

  ghost predicate QuietBut(g: Growing) {
    forall j, s | j in g.index && s in Private(g.index, j) && (s == g.i ==> g.i in g.memory) :: !Resident(g.table, s)
  }

  ghost predicate BackedBut(g: Growing) {
    forall j | j in g.inodes && j !in g.memory && j != g.i :: j < |g.dev.disk| && g.dev.disk[j] == Image(g.inodes[j])
  }

  ghost predicate SameKind(d: InodeDisk, d': InodeDisk) {
    d'.isDir == d.isDir && d'.parent == d.parent
  }

  /** The inode e says of the file with index y what it should, d being what is asked for. */
  ghost predicate Names(e: InodeDisk, y: Index, d: InodeDisk) {
    && Counts(e, |y.data|) && e.length == d.length && SameKind(d, e)
    && (forall k | 0 <= k < |y.data| && k < DIRECT :: e.blocks[k] == y.data[k])
    && (|y.data| > DIRECT ==> e.blocks[13] == y.ind)
    && (|y.data| > SINGLE ==> e.blocks[14] == y.dbl)
  }

  /** An inode that says the right thing is as good as the one in memory. */
  lemma NamesRep(d: InodeDisk, disk: seq<Block>, y: Index, e: InodeDisk)
    requires Rep(d, disk, y) && Names(e, y, d)
    ensures Rep(e, disk, y)
  {
    hide Words, Get;
    forall k | 0 <= k < |y.data|
      ensures Maps(e.blocks, Words(Get(disk, y.ind)), y.groups, disk, k, y.data[k])
    {
      assert Maps(d.blocks, Words(Get(disk, y.ind)), y.groups, disk, k, y.data[k]);
    }
  }

  lemma RepNames(d: InodeDisk, disk: seq<Block>, y: Index)
    requires Rep(d, disk, y) && |y.data| == SectorCount(d.length)
    ensures Names(d, y, d) && InodeOf(Image(d)) == d
  {
    hide Words, Get, InodeOf, Image;
    RepStorable(d, disk, y);
    ImageRoundTrip(d);
    forall k | 0 <= k < |y.data| && k < DIRECT
      ensures d.blocks[k] == y.data[k]
    {
      assert Maps(d.blocks, Words(Get(disk, y.ind)), y.groups, disk, k, y.data[k]);
    }
  }

  /** Everything is as it should be: the tables on the device describe the files, the inodes on it
      say the right thing for every file that is not in memory, file i shows its old bytes followed by
      zeros, to the end of its last sector, and the other files show theirs. */
  ghost predicate Intact(g: Growing, c: Slots) {
    var view, view' := View(g.table, g.dev.disk), View(c.table, c.disk);
    && g.i in g.index && |c.disk| == |g.dev.disk| && |g.index[g.i].data| <= |g.y.data|
    && Mapped(g.inodes[g.i := g.d], g.index[g.i := g.y], c.disk)
    && Told(g.inodes[g.i := g.d], g.index[g.i := g.y], g.memory, c.disk)
    && Inside(g.y.data, |c.disk|) && Inside(g.index[g.i].data, |g.dev.disk|)
    && Bytes(view', g.y.data) == Bytes(view, g.index[g.i].data) + Zeros(512 * (|g.y.data| - |g.index[g.i].data|))
    && (forall j | j in g.index && j != g.i :: SameFile(view, view', g.index[j].data))
  }

  /** The inodes on the device say the right thing, where the one in memory does not. */
  ghost predicate Told(inodes: Inodes, index: Indexes, memory: Inodes, disk: seq<Block>) {
    forall j | j in inodes && j in index && j !in memory :: ToldOne(inodes[j], index[j], disk, j)
  }

  ghost predicate ToldOne(d: InodeDisk, x: Index, disk: seq<Block>, j: nat) {
    j < |disk| && Names(InodeOf(disk[j]), x, d)
  }

  ghost predicate SameFile(view: seq<Block>, view': seq<Block>, data: seq<Word>) {
    Inside(data, |view|) && |view'| == |view| && Bytes(view', data) == Bytes(view, data)
  }

  /** Every cached block over a sector that growth will take is the block that belongs there: zero
      over data; over a table anything clean, which no one reads, or else what the table lists. Over
      the sector of a new inode it may be anything clean, too, or else an inode that says the right
      thing. The request is d. */
  ghost predicate Harmless(table: seq<Entry>, x: Index, y: Index, i: nat, made: bool, d: InodeDisk) {
    && (forall j | 0 <= j < |table| && table[j].occupied && table[j].sector in Owned(y) - Owned(x) :: HarmlessSlot(table[j], y))
    && (made ==> forall j | Holds(table, j, i) && table[j].dirty :: Names(InodeOf(table[j].block), y, d))
  }

  ghost predicate HarmlessSlot(e: Entry, y: Index) {
    if e.sector in DataSet(y) then e.block == ZeroBlock()
    else e.dirty ==> Lists(y, e.sector, Words(e.block))
  }

  /** What is asked for: inode i with the new length. */
  ghost function Request(g: Growing): InodeDisk
    requires g.i in g.inodes
  {
    g.inodes[g.i].(length := g.d.length)
  }

  ghost predicate AllHarmless(g: Growing) {
    g.i in g.inodes && g.i in g.index && Harmless(g.table, g.index[g.i], g.y, g.i, g.i !in g.memory, Request(g))
  }

  lemma GrowsFacts(g: Growing)
    requires Grows(g)
    ensures g.i in g.index && g.i in g.inodes && Coherent(g.table, g.dev.disk) && OnceEach(g.table)
    ensures |g.after.disk| == |g.dev.disk| == |DiskAfter(g)| && g.i < |g.dev.disk|
    ensures Plan(g.dev.used, g.index[g.i], g.y) && |g.y.groups| == GroupCount(|g.y.data|)
    ensures |g.index[g.i].data| <= |g.y.data| && Need(|g.index[g.i].data|) <= Need(|g.y.data|)
    ensures Separated(g.index[g.i]) && Rep(g.d, g.after.disk, g.y) && Layout(g.dev.used, g.inodes, g.index)
  {
    hide Take, Padded, QuietBut, BackedBut, Image, Layout, Coherent, OnceEach, Describes, Separated, View;
    hide Owned, TableSet, Counts, Need;
    SlotsOnce(g.table, g.dev.disk);
    LayoutAt(g.dev.used, g.inodes, g.index, g.i);
    assert g.i in Holding(g.index, g.i);
    assert Rep(g.inodes[g.i], g.dev.disk, g.index[g.i]);
    GroupsCounted(g.d, g.after.disk, g.y);
  }

  lemma SlotsOnce(table: seq<Entry>, disk: seq<Block>)
    requires Coherent(table, disk)
    ensures OnceEach(table)
  {
  }

  lemma GroupsCounted(d: InodeDisk, disk: seq<Block>, y: Index)
    requires Rep(d, disk, y)
    ensures |y.groups| == GroupCount(|y.data|)
  {
  }

  lemma ElsewhereAfter(g: Growing, s: nat)
    requires s < |g.after.disk| && s != g.i
    ensures |DiskAfter(g)| == |g.after.disk| && DiskAfter(g)[s] == g.after.disk[s]
  {
    hide Image;
  }

  /** The sector of the inode is not one the file takes. */
  lemma InodeNotTaken(g: Growing)
    requires Grows(g)
    ensures g.i !in Owned(g.y)
  {
    hide Coherent, Mapped, Padded, QuietBut, BackedBut, Rep, Plan, View, Separated;
    LayoutAt(g.dev.used, g.inodes, g.index, g.i);
    assert g.i in Holding(g.index, g.i);
  }

  /** A sector of file j that growing file i did not touch. */
  lemma UntouchedSector(g: Growing, j: nat, s: nat)
    requires Grows(g) && j in g.index
    requires s in Owned(g.index[j]) && (j == g.i ==> s !in TableSet(g.index[g.i]))
    ensures s < |g.dev.disk| == |DiskAfter(g)| && DiskAfter(g)[s] == g.dev.disk[s] && s !in Owned(g.y) - Owned(g.index[g.i])
  {
    hide Coherent, Mapped, Padded, QuietBut, BackedBut, Rep, Plan, View, Separated, DiskAfter;
    LayoutAt(g.dev.used, g.inodes, g.index, j);
    InodeApart(g.dev.used, g.inodes, g.index, g.i, j);
    if j != g.i {
      LayoutApart(g.dev.used, g.inodes, g.index, g.i, j);
    }
    assert g.index[g.i].data <= g.y.data;
    ElsewhereAfter(g, s);
  }

  lemma SteadyOld(disk: seq<Block>, table: seq<Entry>, disk': seq<Block>, s: nat)
    requires Coherent(table, disk) && s < |disk| == |disk'| && disk'[s] == disk[s]
    ensures Steady(Slots(table, disk'), s) && View(table, disk')[s] == View(table, disk)[s]
  {
  }

  lemma SteadyNew(g: Growing, disk: seq<Block>, s: nat)
    requires AllHarmless(g) && s in DataSet(g.y) && s !in Owned(g.index[g.i]) && s < |disk| && disk[s] == ZeroBlock()
    ensures Steady(Slots(g.table, disk), s) && View(g.table, disk)[s] == ZeroBlock()
  {
    hide Names, Request;
    assert s in Owned(g.y) - Owned(g.index[g.i]);
    assert forall j | Holds(g.table, j, s) :: HarmlessSlot(g.table[j], g.y);
  }

  /** The view of the data sectors stays right. */
  lemma DataStays(g: Growing, c: Slots, j: nat, k: nat)
    requires Grows(g) && AllHarmless(g) && Drift(Start(g), c) && j in g.index
    ensures |c.disk| == |g.dev.disk|
    ensures k < |g.index[j].data| ==> var s := g.index[j].data[k];
              s < |g.dev.disk| && View(c.table, c.disk)[s] == View(g.table, g.dev.disk)[s]
    ensures j == g.i && |g.index[g.i].data| <= k < |g.y.data| ==>
              g.y.data[k] < |g.dev.disk| && View(c.table, c.disk)[g.y.data[k]] == ZeroBlock()
  {
    hide *;
    GrowsFacts(g);
    StartIs(g);
    DriftSize(Start(g), c);
    if k < |g.index[j].data| {
      var s := g.index[j].data[k];
      DataIsOwned(g.index[j], k);
      if j == g.i { DataNotTable(g.index[g.i], s); }
      UntouchedSector(g, j, s);
      SteadyOld(g.dev.disk, g.table, DiskAfter(g), s);
      DriftView(Start(g), c, s);
    }
    if j == g.i && |g.index[g.i].data| <= k < |g.y.data| {
      NewSector(g, k);
      SteadyNew(g, DiskAfter(g), g.y.data[k]);
      DriftView(Start(g), c, g.y.data[k]);
    }
  }

  lemma StartIs(g: Growing)
    ensures Start(g).table == g.table && Start(g).disk == DiskAfter(g) && Start(g) == Slots(g.table, DiskAfter(g))
  {
  }

  lemma DriftSize(c0: Slots, c: Slots)
    requires Drift(c0, c)
    ensures |c.disk| == |c0.disk|
  {
  }

  lemma DataIsOwned(x: Index, k: nat)
    requires k < |x.data|
    ensures x.data[k] in DataSet(x) && x.data[k] in Owned(x)
  {
  }

  lemma DataNotTable(x: Index, s: nat)
    requires Separated(x) && s in DataSet(x)
    ensures s !in TableSet(x)
  {
  }

  lemma NewSector(g: Growing, k: nat)
    requires Grows(g) && |g.index[g.i].data| <= k < |g.y.data|
    ensures g.y.data[k] < |DiskAfter(g)| == |g.dev.disk| && DiskAfter(g)[g.y.data[k]] == ZeroBlock()
    ensures g.y.data[k] in DataSet(g.y) && g.y.data[k] in Owned(g.y) && g.y.data[k] !in Owned(g.index[g.i])
  {
    hide Coherent, Mapped, Padded, QuietBut, BackedBut, Layout, Plan, View, DiskAfter, Describes;
    var x, y := g.index[g.i], g.y;
    assert y.data[k] in DataSet(y) && Separated(y);
    assert y.data[k] !in x.data;
    TablesStay(g.dev.used, x, y);
    InodeNotTaken(g);
    ElsewhereAfter(g, y.data[k]);
  }

  /** Tables of the old file are tables of the new one. */
  lemma TablesStay(used: seq<bool>, x: Index, y: Index)
    requires Plan(used, x, y)
    ensures TableSet(x) <= TableSet(y)
  {
    hide Take, Need;
  }

  /** Tables on the device stay right. */
  lemma OtherTablesStay(g: Growing, c: Slots, j: nat)
    requires Grows(g) && Drift(Start(g), c) && j in g.index && j != g.i && j in g.inodes
    ensures Rep(g.inodes[j], c.disk, g.index[j])
  {
    hide *;
    GrowsFacts(g);
    StartIs(g);
    DriftSize(Start(g), c);
    forall s | s in TableSet(g.index[j])
      ensures s < |g.dev.disk| && c.disk[s] == g.dev.disk[s]
    {
      TablesOwned(g.index[j]);
      UntouchedSector(g, j, s);
      TableQuiet(g, j, s);
      DriftQuiet(Start(g), c, s);
    }
    RepBefore(g, j);
    RepFrame(g.inodes[j], g.dev.disk, c.disk, g.index[j]);
  }

  /** A sector that was not cached stays as it is on the device. */
  lemma DriftQuiet(c0: Slots, c: Slots, s: nat)
    requires Drift(c0, c) && s < |c.disk| && !Resident(c0.table, s)
    ensures c.disk[s] == c0.disk[s]
  {
  }

  lemma RepBefore(g: Growing, j: nat)
    requires Grows(g) && j in g.index
    ensures j in g.inodes && Rep(g.inodes[j], g.dev.disk, g.index[j]) && |g.index[j].data| == SectorCount(g.inodes[j].length)
  {
    hide Coherent, Padded, QuietBut, BackedBut, Plan, View, Rep, Extends;
  }

  lemma TableQuiet(g: Growing, j: nat, s: nat)
    requires Grows(g) && j in g.index && s in TableSet(g.index[j])
    ensures !Resident(g.table, s)
  {
    hide Coherent, Padded, BackedBut, Plan, View, Rep, Extends, Mapped, TableSet, Owned, Layout;
    InodeApart(g.dev.used, g.inodes, g.index, g.i, j);
    TablesOwned(g.index[j]);
    assert s in Private(g.index, j);
  }

  lemma TableStays(g: Growing, c: Slots, s: nat)
    requires Grows(g) && AllHarmless(g) && Drift(Start(g), c) && s in TableSet(g.y)
    ensures s < |c.disk| == |g.after.disk| && Lists(g.y, s, Words(c.disk[s]))
  {
    hide *;
    GrowsFacts(g);
    StartIs(g);
    DriftSize(Start(g), c);
    RepLists(g.d, g.after.disk, g.y, s);
    InodeNotTaken(g);
    TablesOwned(g.y);
    ElsewhereAfter(g, s);
    if s in TableSet(g.index[g.i]) {
      TableQuiet(g, g.i, s);
      DriftQuiet(Start(g), c, s);
    } else {
      NewTable(g, s);
      if c.disk[s] != DiskAfter(g)[s] {
        TableFlushed(g, c, s);
      }
    }
  }

  lemma NewTable(g: Growing, s: nat)
    requires Grows(g) && s in TableSet(g.y) && s !in TableSet(g.index[g.i])
    ensures s in Owned(g.y) - Owned(g.index[g.i]) && s !in DataSet(g.y)
  {
    hide *;
    ExtendsIs(g);
    ExtendsApart(g.dev, g.index[g.i], g.after, g.d, g.y);
    NewTableIs(g.index[g.i], g.y, s);
  }

  lemma NewTableIs(x: Index, y: Index, s: nat)
    requires x.data <= y.data && DataSet(y) !! TableSet(y) && s in TableSet(y) && s !in TableSet(x)
    ensures s in Owned(y) - Owned(x) && s !in DataSet(y)
  {
    hide TableSet;
  }

  lemma ExtendsApart(dev: Dev, x: Index, r: Dev, d: InodeDisk, y: Index)
    requires Extends(dev, x, r, d, y)
    ensures x.data <= y.data && DataSet(y) !! TableSet(y)
  {
    hide Describes, DataSet, TableSet;
  }

  lemma TableFlushed(g: Growing, c: Slots, s: nat)
    requires AllHarmless(g) && Drift(Start(g), c) && s < |c.disk| && c.disk[s] != DiskAfter(g)[s]
    requires s in Owned(g.y) - Owned(g.index[g.i]) && s !in DataSet(g.y)
    ensures Lists(g.y, s, Words(c.disk[s]))
  {
    hide Lists, Words, DiskAfter, Owned, DataSet, Names;
    assert DirtyOver(g.table, s, c.disk[s]);
    var j :| Holds(g.table, j, s) && g.table[j].dirty && g.table[j].block == c.disk[s];
    assert HarmlessSlot(g.table[j], g.y);
  }

  lemma MappedStays(g: Growing, c: Slots)
    requires Grows(g) && AllHarmless(g) && Drift(Start(g), c)
    ensures Mapped(g.inodes[g.i := g.d], g.index[g.i := g.y], c.disk)
  {
    hide *;
    GrowsFacts(g);
    StartIs(g);
    DriftSize(Start(g), c);
    KeysOf(g.dev.used, g.inodes, g.index);
    forall s | s in TableSet(g.y)
      ensures s < |c.disk| && Lists(g.y, s, Words(c.disk[s]))
    {
      TableStays(g, c, s);
    }
    ListsRep(g.d, g.after.disk, g.y, c.disk);
    forall j | j in g.index && j != g.i
      ensures Rep(g.inodes[j], c.disk, g.index[j])
    {
      OtherTablesStay(g, c, j);
    }
    MappedUpdate(g.inodes, g.index, g.i, g.d, g.y, c.disk);
  }

  /** Inodes on the device stay right. */
  lemma OtherInodeStays(g: Growing, c: Slots, j: nat)
    requires Grows(g) && Drift(Start(g), c) && j in g.index && j != g.i && j in g.inodes && j !in g.memory
    ensures ToldOne(g.inodes[j], g.index[j], c.disk, j)
  {
    hide *;
    GrowsFacts(g);
    StartIs(g);
    DriftSize(Start(g), c);
    InodeBefore(g, j);
    ExtendsIs(g);
    GrownInodes(g.dev, g.inodes, g.index, g.i, g.after, g.d, g.y);
    SameInode(g.inodes, g.dev.disk, g.after.disk, j);
    ElsewhereAfter(g, j);
    DriftQuiet(Start(g), c, j);
    RepBefore(g, j);
    RepNames(g.inodes[j], g.dev.disk, g.index[j]);
    ToldIs(g.inodes[j], g.index[j], c.disk, j);
  }

  lemma ExtendsIs(g: Growing)
    requires Grows(g)
    ensures g.i in g.index && Extends(g.dev, g.index[g.i], g.after, g.d, g.y) && Layout(g.dev.used, g.inodes, g.index)
  {
  }

  lemma SameInode(inodes: Inodes, disk: seq<Block>, disk': seq<Block>, j: nat)
    requires InodesKept(inodes, disk, disk') && j in inodes && j < |disk|
    ensures j < |disk'| && disk'[j] == disk[j]
  {
  }

  lemma InodeBefore(g: Growing, j: nat)
    requires Grows(g) && j in g.inodes && j != g.i && j !in g.memory && j in g.index
    ensures j < |g.dev.disk| && g.dev.disk[j] == Image(g.inodes[j]) && !Resident(g.table, j)
  {
    hide Coherent, Padded, Plan, View, Rep, Extends, Mapped, TableSet, Layout, Image;
    assert j in Private(g.index, j);
  }

  lemma ToldIs(d: InodeDisk, x: Index, disk: seq<Block>, j: nat)
    ensures ToldOne(d, x, disk, j) <==> j < |disk| && Names(InodeOf(disk[j]), x, d)
  {
    hide Names, InodeOf;
  }

  lemma OwnInodeStays(g: Growing, c: Slots)
    requires Grows(g) && AllHarmless(g) && Drift(Start(g), c) && g.i !in g.memory
    ensures ToldOne(g.d, g.y, c.disk, g.i)
  {
    hide *;
    GrowsFacts(g);
    StartIs(g);
    DriftSize(Start(g), c);
    ImageWritten(g);
    ToldIs(g.d, g.y, c.disk, g.i);
    if c.disk[g.i] != DiskAfter(g)[g.i] {
      InodeFlushed(g, c);
    }
  }

  lemma ImageWritten(g: Growing)
    requires Grows(g) && g.i !in g.memory
    ensures g.i < |DiskAfter(g)| && Names(InodeOf(DiskAfter(g)[g.i]), g.y, g.d)
  {
    hide Coherent, Padded, Plan, View, Rep, Mapped, Layout, Image, Names, InodeOf, QuietBut, BackedBut;
    GrowsFacts(g);
    RepNames(g.d, g.after.disk, g.y);
  }

  lemma InodeFlushed(g: Growing, c: Slots)
    requires Grows(g) && AllHarmless(g) && Drift(Start(g), c) && g.i !in g.memory
    requires g.i < |c.disk| && c.disk[g.i] != DiskAfter(g)[g.i]
    ensures Names(InodeOf(c.disk[g.i]), g.y, g.d)
  {
    hide DiskAfter, Owned, InodeOf, Coherent, Layout, Mapped, Padded, QuietBut, BackedBut, Plan, Extends, HarmlessSlot, View;
    assert DirtyOver(g.table, g.i, c.disk[g.i]);
    var j :| Holds(g.table, j, g.i) && g.table[j].dirty && g.table[j].block == c.disk[g.i];
    assert Names(InodeOf(g.table[j].block), g.y, Request(g));
  }

  lemma ToldStays(g: Growing, c: Slots)
    requires Grows(g) && AllHarmless(g) && Drift(Start(g), c)
    ensures Told(g.inodes[g.i := g.d], g.index[g.i := g.y], g.memory, c.disk)
  {
    hide Grows, AllHarmless, Drift, ToldOne;
    var inodes', index' := g.inodes[g.i := g.d], g.index[g.i := g.y];
    GrowsFacts(g);
    forall j | j in inodes' && j in index' && j !in g.memory
      ensures ToldOne(inodes'[j], index'[j], c.disk, j)
    {
      if j == g.i {
        OwnInodeStays(g, c);
      } else {
        OtherInodeStays(g, c, j);
      }
    }
  }

  lemma OwnBytesStay(g: Growing, c: Slots)
    requires Grows(g) && AllHarmless(g) && Drift(Start(g), c)
    ensures g.i in g.index && |c.disk| == |g.dev.disk| && |g.index[g.i].data| <= |g.y.data|
    ensures Inside(g.y.data, |c.disk|) && Inside(g.index[g.i].data, |g.dev.disk|)
    ensures Bytes(View(c.table, c.disk), g.y.data)
            == Bytes(View(g.table, g.dev.disk), g.index[g.i].data) + Zeros(512 * (|g.y.data| - |g.index[g.i].data|))
  {
    hide AllHarmless, Drift, Plan, View, Rep, Owned, Coherent, Layout, Mapped, Padded, QuietBut, BackedBut, DiskAfter;
    var x, y := g.index[g.i], g.y;
    GrowsFacts(g);
    StartIs(g);
    DriftSize(Start(g), c);
    assert x.data <= y.data;
    var view, view' := View(g.table, g.dev.disk), View(c.table, c.disk);
    forall k | 0 <= k < |y.data|
      ensures y.data[k] < |c.disk| && view'[y.data[k]] == if k < |x.data| then view[y.data[k]] else ZeroBlock()
    {
      DataStays(g, c, g.i, k);
    }
    assert forall k | 0 <= k < |x.data| :: x.data[k] == y.data[k];
    BytesExtend(view, view', x.data, y.data);
  }

  lemma OtherBytesStay(g: Growing, c: Slots, j: nat)
    requires Grows(g) && AllHarmless(g) && Drift(Start(g), c) && j in g.index && j != g.i
    ensures SameFile(View(g.table, g.dev.disk), View(c.table, c.disk), g.index[j].data)
  {
    hide AllHarmless, Drift, View, Grows, Start;
    DataStays(g, c, j, |g.index[j].data|);
    var view, view', data := View(g.table, g.dev.disk), View(c.table, c.disk), g.index[j].data;
    forall k | 0 <= k < |data|
      ensures data[k] < |g.dev.disk| && view'[data[k]] == view[data[k]]
    {
      DataStays(g, c, j, k);
    }
    BytesFrame(view, view', data);
  }

  lemma IntactAfter(g: Growing, c: Slots)
    requires Grows(g) && AllHarmless(g) && Drift(Start(g), c)
    ensures Intact(g, c)
  {
    hide Grows, AllHarmless, Drift, Mapped, Bytes, View, SameFile, Inside, Told;
    MappedStays(g, c);
    ToldStays(g, c);
    OwnBytesStay(g, c);
    forall j | j in g.index && j != g.i
      ensures SameFile(View(g.table, g.dev.disk), View(c.table, c.disk), g.index[j].data)
    {
      OtherBytesStay(g, c, j);
    }
  }

  // ----- The other direction -----

  /** Zero bytes at the end mean zero sectors. */
  lemma ZeroBytesZeroBlock(view: seq<Block>, data: seq<Word>, first: seq<Byte>, n: nat, k: nat)
    requires Inside(data, |view|) && |first| == 512 * n && n <= k < |data|
    requires Bytes(view, data) == first + Zeros(512 * (|data| - n))
    ensures view[data[k]] == ZeroBlock()
  {
    var b := Bytes(view, data);
    forall q | 0 <= q < 512
      ensures view[data[k]][q] == 0
    {
      var p := 512 * k + q;
      assert p / 512 == k && p % 512 == q && b[p] == 0;
    }
  }

  lemma DataMustBeZero(g: Growing, j: nat)
    requires Grows(g) && Intact(g, Start(g)) && j < |g.table| && g.table[j].occupied
    requires g.table[j].sector in DataSet(g.y) && g.table[j].sector !in Owned(g.index[g.i])
    ensures g.table[j].block == ZeroBlock()
  {
    hide Plan, Mapped, Layout, Padded, QuietBut, BackedBut, Rep, Told, DiskAfter, Extends;
    var x, s := g.index[g.i], g.table[j].sector;
    GrowsFacts(g);
    var k :| 0 <= k < |g.y.data| && g.y.data[k] == s;
    assert k >= |x.data| by { ExtendsIs(g); PrefixData(g, k); }
    ZeroBytesZeroBlock(View(g.table, DiskAfter(g)), g.y.data, Bytes(View(g.table, g.dev.disk), x.data), |x.data|, k);
    assert Holds(g.table, j, s);
  }

  lemma PrefixData(g: Growing, k: nat)
    requires g.i in g.index && Extends(g.dev, g.index[g.i], g.after, g.d, g.y) && k < |g.y.data|
    requires g.y.data[k] !in Owned(g.index[g.i])
    ensures k >= |g.index[g.i].data|
  {
    hide Rep;
    assert forall q | 0 <= q < |g.index[g.i].data| :: g.index[g.i].data[q] in DataSet(g.index[g.i]);
  }

  lemma TableMustList(g: Growing, j: nat, c: Slots)
    requires j < |g.table| && g.table[j].occupied && g.table[j].dirty && g.table[j].sector in TableSet(g.y)
    requires g.table[j].sector < |c.disk| && c.disk[g.table[j].sector] == g.table[j].block
    requires Intact(g, c)
    ensures Lists(g.y, g.table[j].sector, Words(g.table[j].block))
  {
    hide Lists, Words, View, Bytes, Told;
    assert Rep(g.d, c.disk, g.y) by { IntactRep(g, c, g.i); }
    RepLists(g.d, c.disk, g.y, g.table[j].sector);
  }

  lemma IntactRep(g: Growing, c: Slots, j: nat)
    requires Intact(g, c) && j in g.index
    ensures j in g.inodes[g.i := g.d] && Rep(g.inodes[g.i := g.d][j], c.disk, g.index[g.i := g.y][j])
  {
    hide View, Bytes, Told, Rep, SameFile;
    var m := g.index[g.i := g.y];
    assert j in m;
  }

  lemma SlotMustBeHarmless(g: Growing, j: nat)
    requires Grows(g) && j < |g.table| && g.table[j].occupied && g.table[j].sector in Owned(g.y) - Owned(g.index[g.i])
    requires Intact(g, Start(g)) && Intact(g, Flush(Start(g), j, false))
    ensures HarmlessSlot(g.table[j], g.y)
  {
    hide Grows, Intact, Lists, Words, DiskAfter, Coherent, OnceEach, Plan, Layout, Rep, Separated, DataSet, TableSet;
    var s := g.table[j].sector;
    GrowsFacts(g);
    assert s < |DiskAfter(g)| by { assert Holds(g.table, j, s); SlotInside(g.table, g.dev.disk, j); }
    if s in DataSet(g.y) {
      DataMustBeZero(g, j);
    } else if g.table[j].dirty {
      TableMustList(g, j, Flush(Start(g), j, false));
    }
  }

  lemma SlotInside(table: seq<Entry>, disk: seq<Block>, j: nat)
    requires Coherent(table, disk) && j < |table| && table[j].occupied
    ensures table[j].sector < |disk|
  {
  }

  lemma InodeMustBeNamed(g: Growing, j: nat)
    requires Grows(g) && Holds(g.table, j, g.i) && g.table[j].dirty && g.i !in g.memory
    requires Intact(g, Flush(Start(g), j, false))
    ensures Names(InodeOf(g.table[j].block), g.y, Request(g))
  {
    hide *;
    GrowsFacts(g);
    KindIs(g);
    StartIs(g);
    FlushedOver(g, j);
    IntactTold(g, Flush(Start(g), j, false), g.i);
    NamesRequest(g, InodeOf(g.table[j].block));
  }

  lemma FlushedOver(g: Growing, j: nat)
    requires Holds(g.table, j, g.i) && g.table[j].dirty && g.i < |DiskAfter(g)|
    ensures j < |g.table| && Flush(Start(g), j, false).disk == DiskAfter(g)[g.i := g.table[j].block]
  {
    hide DiskAfter;
  }

  lemma NamesRequest(g: Growing, e: InodeDisk)
    requires g.i in g.inodes && SameKind(g.inodes[g.i], g.d) && Names(e, g.y, g.d)
    ensures Names(e, g.y, Request(g))
  {
    hide Counts;
  }

  lemma KindIs(g: Growing)
    requires Grows(g)
    ensures g.i in g.inodes && SameKind(g.inodes[g.i], g.d)
  {
  }

  /** Growth shows what it should, at once and after every later write-back and eviction, exactly if
      every cached block over a sector it takes, and over the sector of a new inode, is harmless. The
      sectors, and what each of them is taken for, follow from the free map before the growth. */
  lemma StaleExactly(g: Growing)
    requires Grows(g)
    ensures g.i in g.index && g.i in g.inodes && |g.index[g.i].data| <= |g.y.data| && |g.dev.used| <= 0x1_0000_0000
    ensures Need(|g.index[g.i].data|) <= Need(|g.y.data|)
    ensures g.y == Planned(g.dev.used, g.index[g.i], SectorCount(g.d.length))
    ensures Harmless(g.table, g.index[g.i], g.y, g.i, g.i !in g.memory, Request(g)) <==>
              forall steps: seq<Step> | Allowed(steps, |g.table|) :: Intact(g, Later(Slots(g.table, DiskAfter(g)), steps))
  {
    hide Grows, Intact, Harmless, OnceEach, Drift, HarmlessSlot, Flush, Plan, Planned, Need, DiskAfter, Request, Names;
    GrowsFacts(g);
    LengthIs(g);
    PlannedIs(g.dev.used, g.index[g.i], g.y);
    var c := Start(g);
    if Harmless(g.table, g.index[g.i], g.y, g.i, g.i !in g.memory, Request(g)) {
      forall steps: seq<Step> | Allowed(steps, |g.table|)
        ensures Intact(g, Later(c, steps))
      {
        DriftAlways(c, steps);
        IntactAfter(g, Later(c, steps));
      }
    }
    if forall steps: seq<Step> | Allowed(steps, |g.table|) :: Intact(g, Later(c, steps)) {
      MustBeHarmless(g);
    }
  }

  lemma LengthIs(g: Growing)
    requires Grows(g)
    ensures |g.y.data| == SectorCount(g.d.length)
  {
  }

  lemma MustBeHarmless(g: Growing)
    requires Grows(g) && forall steps: seq<Step> | Allowed(steps, |g.table|) :: Intact(g, Later(Start(g), steps))
    ensures AllHarmless(g)
  {
    hide Grows, Intact, OnceEach, Drift, HarmlessSlot, Flush, Plan, Planned, Need, DiskAfter, Request, Names, InodeOf;
    hide Coherent, Layout, Rep, Separated, Owned, GroupCount;
    var c := Start(g);
    GrowsFacts(g);
    LaterNone(c);
    forall j | 0 <= j < |g.table| && g.table[j].occupied && g.table[j].sector in Owned(g.y) - Owned(g.index[g.i])
      ensures HarmlessSlot(g.table[j], g.y)
    {
      LaterOne(c, j);
      SlotMustBeHarmless(g, j);
    }
    forall j | Holds(g.table, j, g.i) && g.table[j].dirty && g.i !in g.memory
      ensures Names(InodeOf(g.table[j].block), g.y, Request(g))
    {
      LaterOne(c, j);
      InodeMustBeNamed(g, j);
    }
  }

  lemma LaterNone(c: Slots)
    ensures Allowed([], |c.table|) && Later(c, []) == c
  {
  }

  lemma LaterOne(c: Slots, j: nat)
    requires j < |c.table|
    ensures Allowed([Step(j, false)], |c.table|) && Later(c, [Step(j, false)]) == Flush(c, j, false)
  {
    var steps := [Step(j, false)];
    assert steps[..0] == [];
  }

  // ----- The two ways a file grows -----

  /** What inode_grow does to an open file, in a sound state and with room. */
  lemma GrowExactly(dev: Dev, inodes: Inodes, index: Indexes, memory: Inodes, table: seq<Entry>, i: nat, r: Grown, y: Index)
    requires Sound(dev.used, inodes, index, table, dev.disk) && Backed(inodes, memory, dev.disk)
    requires i in memory && i in inodes && i in index && SameKind(inodes[i], r.d) && SectorCount(r.d.length) <= CAPACITY
    requires Fits(dev, |index[i].data|, SectorCount(r.d.length)) && Outcome(dev, index[i], r, y, SectorCount(r.d.length))
    ensures var g := Growing(dev, inodes, index, memory, table, i, r.dev, r.d, y);
            Grows(g) && (Harmless(table, index[i], y, i, false, Request(g)) <==>
                           forall steps: seq<Step> | Allowed(steps, |table|) :: Intact(g, Later(Slots(table, r.dev.disk), steps)))
  {
    hide Sound, Backed, Fits, Outcome, Harmless, Intact, Request, Grows, Later, SectorCount;
    var g := Growing(dev, inodes, index, memory, table, i, r.dev, r.d, y);
    OutcomeFits(dev, index[i], r, y, SectorCount(r.d.length));
    assert Grows(g) by { OpenGrows(g); }
    StaleExactly(g);
  }

  lemma OutcomeFits(dev: Dev, x: Index, r: Grown, y: Index, n: nat)
    requires n <= CAPACITY && Fits(dev, |x.data|, n) && Outcome(dev, x, r, y, n)
    ensures Extends(dev, x, r.dev, r.d, y) && Plan(dev.used, x, y) && |y.data| == n
  {
    hide Extends, Plan, Fits, Resumed;
  }

  lemma OpenGrows(g: Growing)
    requires Sound(g.dev.used, g.inodes, g.index, g.table, g.dev.disk) && Backed(g.inodes, g.memory, g.dev.disk)
    requires g.i in g.memory && g.i in g.inodes && g.i in g.index && SameKind(g.inodes[g.i], g.d)
    requires Plan(g.dev.used, g.index[g.i], g.y) && Extends(g.dev, g.index[g.i], g.after, g.d, g.y)
    requires |g.y.data| == SectorCount(g.d.length)
    ensures Grows(g)
  {
    hide Coherent, Layout, Mapped, Padded, View, Plan, Extends, Private, Image;
  }

  /** What inode_create does in a sector set aside, in a sound state and with room. */
  lemma CreateExactly(dev: Dev, inodes: Inodes, index: Indexes, memory: Inodes, table: seq<Entry>, i: nat, isDir: bool,
                      r: Grown, y: Index)
    requires Sound(dev.used, inodes, index, table, dev.disk) && Backed(inodes, memory, dev.disk)
    requires i !in inodes && InUse(dev.used, {i}) && (forall j | j in inodes :: i !in Owned(index[j]))
    requires SameKind(EmptyInode(isDir), r.d) && SectorCount(r.d.length) <= CAPACITY
    requires Fits(dev, 0, SectorCount(r.d.length)) && Outcome(dev, EmptyIndex(), r, y, SectorCount(r.d.length))
    ensures i < |r.dev.disk|
    ensures var g := Growing(dev, inodes[i := EmptyInode(isDir)], index[i := EmptyIndex()], memory, table, i, r.dev, r.d, y);
            && Grows(g)
            && (Harmless(table, EmptyIndex(), y, i, true, EmptyInode(isDir).(length := r.d.length)) <==>
                  forall steps: seq<Step> | Allowed(steps, |table|) ::
                    Intact(g, Later(Slots(table, r.dev.disk[i := Image(r.d)]), steps)))
  {
    hide Sound, Backed, Fits, Outcome, Harmless, Intact, Grows, Later, SectorCount, Image, EmptyInode, InUse;
    var g := Growing(dev, inodes[i := EmptyInode(isDir)], index[i := EmptyIndex()], memory, table, i, r.dev, r.d, y);
    assert |EmptyIndex().data| == 0;
    OutcomeFits(dev, EmptyIndex(), r, y, SectorCount(r.d.length));
    assert Grows(g) by { NewGrows(g, inodes, index, isDir); }
    GrowsFacts(g);
    assert i !in memory by { BackedKeys(inodes, memory, dev.disk, i); }
    StaleExactly(g);
  }

  lemma BackedKeys(inodes: Inodes, memory: Inodes, disk: seq<Block>, i: nat)
    requires Backed(inodes, memory, disk) && i !in inodes
    ensures i !in memory
  {
  }

  lemma NewGrows(g: Growing, inodes: Inodes, index: Indexes, isDir: bool)
    requires Sound(g.dev.used, inodes, index, g.table, g.dev.disk) && Backed(inodes, g.memory, g.dev.disk)
    requires g.i !in inodes && InUse(g.dev.used, {g.i}) && (forall j | j in inodes :: g.i !in Owned(index[j]))
    requires g.inodes == inodes[g.i := EmptyInode(isDir)] && g.index == index[g.i := EmptyIndex()]
    requires SameKind(EmptyInode(isDir), g.d) && |g.y.data| == SectorCount(g.d.length)
    requires Plan(g.dev.used, EmptyIndex(), g.y) && Extends(g.dev, EmptyIndex(), g.after, g.d, g.y)
    ensures Grows(g)
  {
    hide Coherent, Rep, View, Plan, Extends, Image, InUse, Owned, TableSet, PaddedOne, Layout, EmptyInode, EmptyIndex, Quiet;
    EmptyRep(isDir, g.dev.disk, View(g.table, g.dev.disk));
    LayoutEmpty(g.dev.used, inodes, index, g.i, isDir);
    KeysOf(g.dev.used, inodes, index);
    MappedUpdate(inodes, index, g.i, EmptyInode(isDir), EmptyIndex(), g.dev.disk);
    QuietNew(g, index);
  }

  lemma QuietNew(g: Growing, index: Indexes)
    requires Quiet(index, g.table) && g.i !in index && g.index == index[g.i := EmptyIndex()] && TableSet(EmptyIndex()) == {}
    requires g.i !in g.memory
    ensures QuietBut(g)
  {
    assert forall j | j in index :: Private(g.index, j) == Private(index, j);
  }

  // ----- What it means to a reader -----

  /** An inode as a reader comes by it: the one in memory, or for a closed file the one on the device. */
  ghost predicate FoundInode(g: Growing, c: Slots, j: nat, e: InodeDisk)
    requires j in g.inodes[g.i := g.d]
  {
    e == g.inodes[g.i := g.d][j] || (j !in g.memory && j < |c.disk| && e == InodeOf(c.disk[j]))
  }

  /** What intact means to a reader: through either inode byte_to_sector and the cache give the old
      bytes of a file, and for file i then zeros. */
  lemma IntactReads(g: Growing, c: Slots, j: nat, e: InodeDisk, pos: nat)
    requires Intact(g, c) && j in g.index && j in g.inodes && FoundInode(g, c, j, e)
    requires |g.index[g.i := g.y][j].data| == SectorCount(g.inodes[g.i := g.d][j].length)
    ensures e.length == g.inodes[g.i := g.d][j].length <= 16525 * 512 && SameKind(g.inodes[g.i := g.d][j], e)
    ensures pos < e.length ==>
              var s := g.index[g.i := g.y][j].data[pos / 512];
              && ByteToSector(e, c.disk, pos) == Some(s) && s < |c.disk| && Inside(g.index[j].data, |g.dev.disk|)
              && View(c.table, c.disk)[s][pos % 512]
                 == if pos < 512 * |g.index[j].data| then Bytes(View(g.table, g.dev.disk), g.index[j].data)[pos] else 0
  {
    hide View, ByteToSector, InodeOf, Rep, Names, Mapped, Told, Bytes;
    var d, y := g.inodes[g.i := g.d][j], g.index[g.i := g.y][j];
    IntactRep(g, c, j);
    if e != d {
      IntactTold(g, c, j);
    }
    RepFound(d, c.disk, y, e);
    if pos < e.length {
      ByteToSectorFinds(e, c.disk, y, pos);
      assert Bytes(View(c.table, c.disk), y.data)[pos] == View(c.table, c.disk)[y.data[pos / 512]][pos % 512];
      if j != g.i {
        assert SameFile(View(g.table, g.dev.disk), View(c.table, c.disk), g.index[j].data);
      }
    }
  }

  lemma IntactTold(g: Growing, c: Slots, j: nat)
    requires Intact(g, c) && j in g.index && j in g.inodes && j !in g.memory
    ensures j < |c.disk| && Names(InodeOf(c.disk[j]), g.index[g.i := g.y][j], g.inodes[g.i := g.d][j])
  {
    hide View, InodeOf, Names, Mapped, Bytes, SameFile;
    var index' := g.index[g.i := g.y];
    assert j in index';
    assert ToldOne(g.inodes[g.i := g.d][j], index'[j], c.disk, j);
  }

  lemma RepFound(d: InodeDisk, disk: seq<Block>, y: Index, e: InodeDisk)
    requires Rep(d, disk, y) && |y.data| == SectorCount(d.length) && (e == d || Names(e, y, d))
    ensures Rep(e, disk, y) && e.length == d.length <= 16525 * 512 && SameKind(d, e)
  {
    hide Describes, Separated;
    if e != d { NamesRep(d, disk, y, e); }
  }
}

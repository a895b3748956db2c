/** A mounted file system: file handles (src/filesys/file.c) and the creation of files
    (src/filesys/filesys.c) over in-memory inodes and the volume. Every sector in use is accounted
    for in every state any sequence of calls can lead to. */
module Mounts {
  import opened Common
  import opened Cache
  import opened Sectors
  import opened Inode
  import opened Plans
  import opened Growth
  import opened Grow
  import opened Free
  import opened FileSystem
  import opened Volumes
  import Files

  // ----- Accounting for sectors -----

  /** Sector s belongs to a file. */
  ghost predicate Owner(index: Indexes, s: nat) {
    exists i :: i in index && s in Holding(index, i)
  }

  /** A sector is in use exactly if it belongs to a file or is one of the others, and none is both. */
  ghost predicate Accounted(used: seq<bool>, index: Indexes, others: set<nat>) {
    && (forall s | 0 <= s < |used| :: used[s] <==> s in others || Owner(index, s))
    && (forall s | s in others :: s < |used| && !Owner(index, s))
  }

  lemma OwnerUpdate(index: Indexes, i: nat, y: Index, s: nat)
    ensures Owner(index[i := y], s) <==> s in Owned(y) + {i} || exists j :: j in index && j != i && s in Holding(index, j)
  {
    hide Owned;
    var after := index[i := y];
    assert Holding(after, i) == Owned(y) + {i};
    assert forall j | j in index && j != i :: Holding(after, j) == Holding(index, j);
    if s in Owned(y) + {i} { assert i in after && s in Holding(after, i); }
    if j :| j in index && j != i && s in Holding(index, j) { assert j in after && s in Holding(after, j); }
  }

  lemma OwnerOther(index: Indexes, i: nat, s: nat)
    requires i in index
    ensures Owner(index, s) <==> s in Holding(index, i) || exists j :: j in index && j != i && s in Holding(index, j)
  {
    hide Holding;
  }

  lemma OwnerWithout(index: Indexes, i: nat, s: nat)
    ensures Owner(index - {i}, s) <==> exists j :: j in index && j != i && s in Holding(index, j)
  {
    hide Owned;
    assert forall j | j in index && j != i :: Holding(index - {i}, j) == Holding(index, j);
    if j :| j in index && j != i && s in Holding(index, j) { assert j in index - {i} && s in Holding(index - {i}, j); }
  }

  /** A file has taken more sectors. */
  lemma AccountedGrab(used: seq<bool>, index: Indexes, others: set<nat>, i: nat, y: Index, used': seq<bool>)
    requires Accounted(used, index, others) && i in index && Grabbed(used, index[i], y, used')
    ensures Accounted(used', index[i := y], others)
  {
    hide Owner, Owned;
    forall s: nat
      ensures Owner(index[i := y], s) <==> Owner(index, s) || s in Owned(y) - Owned(index[i])
    {
      OwnerUpdate(index, i, y, s);
      OwnerOther(index, i, s);
    }
  }

  /** A new file in sector i, set aside for it before. */
  lemma AccountedNew(used: seq<bool>, index: Indexes, others: set<nat>, i: nat, y: Index, used': seq<bool>)
    requires Accounted(used, index, others) && i !in index && i in others && Grabbed(used, EmptyIndex(), y, used')
    ensures Accounted(used', index[i := y], others - {i})
  {
    hide Owner;
    assert Owned(EmptyIndex()) == {};
    hide Owned;
    forall s: nat
      ensures Owner(index[i := y], s) <==> Owner(index, s) || s in Owned(y) + {i}
    {
      OwnerUpdate(index, i, y, s);
      OwnerNew(index, i, s);
    }
  }

  lemma OwnerNew(index: Indexes, i: nat, s: nat)
    requires i !in index
    ensures Owner(index, s) <==> exists j :: j in index && j != i && s in Holding(index, j)
  {
    hide Holding;
  }

  /** A file is gone. What was not given back of its sectors belongs to no file any more. */
  lemma AccountedGone(used: seq<bool>, inodes: Inodes, index: Indexes, others: set<nat>, i: nat, f: set<nat>, used': seq<bool>)
    requires Accounted(used, index, others) && Layout(used, inodes, index) && i in index
    requires f <= Holding(index, i) && Freed(used, f, used')
    ensures Accounted(used', index - {i}, others + (Holding(index, i) - f))
  {
    hide Owner, Holding;
    forall s: nat
      ensures Owner(index, s) <==> Owner(index - {i}, s) || s in Holding(index, i)
      ensures !(Owner(index - {i}, s) && s in Holding(index, i))
    {
      OwnerOther(index, i, s);
      OwnerWithout(index, i, s);
      OwnerAlone(used, inodes, index, i, s);
    }
    InUseBelow(used, inodes, index, i);
  }

  lemma OwnerAlone(used: seq<bool>, inodes: Inodes, index: Indexes, i: nat, s: nat)
    requires Layout(used, inodes, index) && i in index
    ensures s in Holding(index, i) ==> !exists j :: j in index && j != i && s in Holding(index, j)
  {
    hide Holding, InUse;
  }

  lemma InUseBelow(used: seq<bool>, inodes: Inodes, index: Indexes, i: nat)
    requires Layout(used, inodes, index) && i in index
    ensures forall s | s in Holding(index, i) :: s < |used|
  {
    assert InUse(used, Holding(index, i));
  }

  /** A sector is set aside, or one set aside is given back. */
  lemma AccountedMark(used: seq<bool>, index: Indexes, others: set<nat>, s: nat)
    requires Accounted(used, index, others) && s < |used|
    ensures !used[s] ==> Accounted(used[s := true], index, others + {s})
    ensures s in others ==> Accounted(used[s := false], index, others - {s})
  {
    hide Owner;
  }

  /** A sector set aside is no file's. */
  lemma NoFiles(index: Indexes, s: nat)
    requires !Owner(index, s)
    ensures s !in index && forall j | j in index :: s !in Holding(index, j) && s !in Owned(index[j])
  {
    assert forall j | j in index :: j in Holding(index, j);
  }

  // ----- Conservation -----

  ghost function SomeFile(index: Indexes): (i: nat)
    requires index != map[]
    ensures i in index
  {
    assert index.Keys != {};
    var i :| i in index;
    i
  }

  /** The sectors all files together occupy: for each of them its data, its tables and its inode. */
  ghost function Total(index: Indexes): (n: nat)
    decreases |index|
  {
    if index == map[] then 0
    else
      var i := SomeFile(index);
      assert |index - {i}| < |index| by { assert index.Keys == (index - {i}).Keys + {i}; }
      Need(|index[i].data|) + 1 + Total(index - {i})
  }

  ghost function OwnedOnes(used: seq<bool>, index: Indexes): (r: set<nat>) {
    set s: nat | s < |used| && Owner(index, s)
  }

  lemma {:induction false} TotalCounts(used: seq<bool>, inodes: Inodes, index: Indexes)
    requires Layout(used, inodes, index)
    requires forall i | i in index :: Separated(index[i]) && |index[i].groups| == GroupCount(|index[i].data|)
    ensures |OwnedOnes(used, index)| == Total(index)
    decreases |index|
  {
    hide Layout, Holding, Owned, Need, Separated, GroupCount;
    if index == map[] {
      assert OwnedOnes(used, index) == {};
    } else {
      var i := SomeFile(index);
      assert |index - {i}| < |index| by { assert index.Keys == (index - {i}).Keys + {i}; }
      LayoutRemove(used, inodes, index, i, {}, used);
      TotalCounts(used, inodes - {i}, index - {i});
      OneFileMore(used, inodes, index, i);
    }
  }

  lemma OneFileMore(used: seq<bool>, inodes: Inodes, index: Indexes, i: nat)
    requires Layout(used, inodes, index) && i in index && Separated(index[i]) && |index[i].groups| == GroupCount(|index[i].data|)
    ensures |OwnedOnes(used, index)| == |OwnedOnes(used, index - {i})| + Need(|index[i].data|) + 1
  {
    hide Owner, Owned, Need, InUse, Separated;
    OwnedCount(index[i]);
    InUseBelow(used, inodes, index, i);
    assert i !in Owned(index[i]) && |Holding(index, i)| == Need(|index[i].data|) + 1;
    forall s: nat
      ensures Owner(index, s) <==> Owner(index - {i}, s) || s in Holding(index, i)
      ensures !(Owner(index - {i}, s) && s in Holding(index, i))
    {
      OwnerOther(index, i, s);
      OwnerWithout(index, i, s);
      OwnerAlone(used, inodes, index, i, s);
    }
    assert OwnedOnes(used, index) == OwnedOnes(used, index - {i}) + Holding(index, i);
  }

  ghost function UsedSet(used: seq<bool>): (r: set<nat>) {
    set s: nat | s < |used| && used[s]
  }

  lemma LastSector(used: seq<bool>, n: nat)
    requires |used| == n + 1
    ensures used[n] ==> FreeSet(used) == FreeSet(used[..n]) && UsedSet(used) == UsedSet(used[..n]) + {n}
    ensures !used[n] ==> FreeSet(used) == FreeSet(used[..n]) + {n} && UsedSet(used) == UsedSet(used[..n])
    ensures n !in FreeSet(used[..n]) && n !in UsedSet(used[..n])
  {
  }

  lemma NoSectors()
    ensures FreeSet([]) == {} && UsedSet([]) == {}
  {
  }

  lemma {:induction false} FreeOrUsed(used: seq<bool>)
    ensures FreeCount(used) + |UsedSet(used)| == |used|
    decreases |used|
  {
    hide FreeSet, UsedSet;
    if |used| == 0 {
      NoSectors();
      assert used == [];
    } else {
      LastSector(used, |used| - 1);
      FreeOrUsed(used[..|used| - 1]);
    }
  }

  /** Every sector of the device is free, one of the others, or part of exactly one file. */
  lemma Conservation(used: seq<bool>, inodes: Inodes, index: Indexes, others: set<nat>)
    requires Accounted(used, index, others) && Layout(used, inodes, index)
    requires forall i | i in index :: Separated(index[i]) && |index[i].groups| == GroupCount(|index[i].data|)
    ensures FreeCount(used) + |others| + Total(index) == |used|
  {
    hide Owner, Layout, Separated, GroupCount, Total, FreeCount;
    TotalCounts(used, inodes, index);
    FreeOrUsed(used);
    assert UsedSet(used) == others + OwnedOnes(used, index);
    assert others !! OwnedOnes(used, index);
  }

  // ----- The mount -----

  /** Some handle on the file in sector s denies writes to it. */
  ghost predicate Denied(handles: Files.Handles, s: nat) {
    exists g :: g in handles && handles[g].sector == s && handles[g].deny
  }

  /** The open inodes are the ones in memory. */
  ghost predicate OpenOnes(list: seq<Files.OpenInode>, memory: Inodes) {
    forall t: nat :: Files.IsOpen(list, t) <==> t in memory
  }

  class Mount {
    const files: Files.FileTable
    const vol: Volume
    ghost const reserved: set<nat>                   // sectors that were in use before, as the free map is in sector 0
    ghost var lost: set<nat>                         // sectors in use that belong to nothing any more

    ghost predicate Valid()
      reads this, files, vol, vol.cache, vol.cache.table
    {
      && files.Valid() && vol.Valid() && OpenOnes(files.list, vol.memory)
      && 0 in reserved && Accounted(vol.used, vol.index, reserved + lost)
    }

    /** The bytes of the file in sector s. */
    ghost function Contents(s: nat): seq<Byte>
      requires Valid() && s in vol.inodes
      reads this, files, vol, vol.cache, vol.cache.table
    {
      vol.Contents(s)
    }

    // Taking the invariant apart and putting it together.

    lemma Parts()
      requires Valid()
      ensures files.Valid() && vol.Valid() && OpenOnes(files.list, vol.memory)
      ensures 0 in reserved && Accounted(vol.used, vol.index, reserved + lost)
      ensures vol.inodes.Keys == vol.index.Keys && Layout(vol.used, vol.inodes, vol.index) && vol.memory.Keys <= vol.inodes.Keys
      ensures forall i | i in vol.memory :: vol.memory[i] == vol.inodes[i]
      ensures forall j | j in vol.inodes :: Contents(j) == vol.Contents(j)
    {
      hide Accounted;
    }

    lemma Whole()
      requires files.Valid() && vol.Valid() && OpenOnes(files.list, vol.memory)
      requires 0 in reserved && Accounted(vol.used, vol.index, reserved + lost)
      ensures Valid() && forall j | j in vol.inodes :: Contents(j) == vol.Contents(j)
    {
      hide Accounted;
    }

    /** In every state: free sectors, sectors reserved or lost, and the sectors of the files add up to
        the whole device. */
    lemma SectorsAddUp()
      requires Valid()
      ensures FreeCount(vol.used) + |reserved + lost| + Total(vol.index) == |vol.used|
    {
      hide *;
      Parts();
      forall i | i in vol.index
        ensures Separated(vol.index[i]) && |vol.index[i].groups| == GroupCount(|vol.index[i].data|)
      {
        vol.FileHolds(i);
        RepCounts(vol.inodes[i], vol.cache.disk, vol.index[i]);
      }
      Conservation(vol.used, vol.inodes, vol.index, reserved + lost);
    }

    /** A device without files, of which only the sectors `used` are in use. */
    constructor (disk: seq<Block>, used: seq<bool>)
      requires |disk| == |used| <= 0x1_0000_0000 && |used| > 0 && used[0]
      ensures Valid() && lost == {} && files.handles == map[] && vol.inodes == map[] && vol.used == used && vol.Clean()
      ensures fresh(files) && fresh(vol) && fresh(vol.cache) && fresh(vol.cache.table)
    {
      files := new Files.FileTable();
      vol := new Volume(disk, used);
      reserved := set s: nat | s < |used| && used[s];
      lost := {};
      new;
      vol.KeysAgree();
    }

    lemma HandleFile(h: nat)
      requires files.Valid() && OpenOnes(files.list, vol.memory) && h in files.handles
      ensures files.handles[h].sector in vol.memory && Files.IsOpen(files.list, files.handles[h].sector)
    {
      Files.HandleIsOpen(files.list, files.handles, files.nextHandle, h);
    }

    lemma OpenIs(s: nat)
      requires OpenOnes(files.list, vol.memory)
      ensures Files.IsOpen(files.list, s) <==> s in vol.memory
    {
    }

    /** Opening the file whose inode is in sector s: inode_open, which reads the inode unless it is in
        memory, and then file_open. */
    method Open(s: nat, inodeMemory: bool, fileMemory: bool) returns (r: Option<nat>)
      requires Valid() && s in vol.inodes
      modifies files, vol, vol.cache
      ensures Valid() && vol.inodes == old(vol.inodes) && vol.used == old(vol.used) && vol.index == old(vol.index)
      ensures forall j | j in vol.inodes :: Contents(j) == old(Contents(j))
      ensures r.Some? ==> r.value !in old(files.handles) && files.handles == old(files.handles)[r.value := Files.Handle(s, false)]
      ensures r.None? ==> files.handles == old(files.handles)
      ensures r.Some? <==> (inodeMemory || s in old(vol.memory)) && fileMemory
    {
      hide *;
      Parts();
      OpenIs(s);
      ghost var list, memory := files.list, vol.memory;
      if Files.IsOpen(files.list, s) { files.OpenHasOpeners(s); }
      var ok := files.InodeOpen(s, inodeMemory);
      if !ok {
        files.HoldingNone(s, 0);
        files.ValidIs();
        Whole();
        return None;
      }
      if s !in vol.memory {
        vol.Load(s);
      }
      r := FileOpen(s, fileMemory);
      OpenUpdate(list, memory, files.list, vol.memory, s);
      Whole();
    }

    /** file_open on the inode in memory, which is written back if it was opened in vain. */
    method FileOpen(s: nat, fileMemory: bool) returns (r: Option<nat>)
      requires files.Holding(s, 1) && Files.IsOpen(files.list, s) && vol.Valid() && s in vol.memory
      requires Files.Openers(files.handles, s) == {} ==> !Files.Entry(files.list, s).removed
      modifies files, vol, vol.cache
      ensures files.Valid() && vol.Valid() && vol.inodes == old(vol.inodes) && vol.used == old(vol.used) && vol.index == old(vol.index)
      ensures forall j | j in vol.inodes :: vol.Contents(j) == old(vol.Contents(j))
      ensures r.Some? <==> fileMemory
      ensures r.Some? ==> r.value !in old(files.handles) && files.handles == old(files.handles)[r.value := Files.Handle(s, false)]
      ensures r.None? ==> files.handles == old(files.handles)
      ensures forall t: nat | t != s :: Files.IsOpen(files.list, t) <==> old(Files.IsOpen(files.list, t))
      ensures forall t: nat | t != s :: t in vol.memory <==> t in old(vol.memory)
      ensures Files.IsOpen(files.list, s) <==> s in vol.memory
    {
      hide *;
      var last, release;
      r, last, release := files.FileOpen(s, fileMemory);
      if last {
        vol.Store(s);
      }
    }

    /** file_read_at */
    method Read(h: nat, size: nat, offset: nat) returns (buffer: seq<Byte>)
      requires Valid() && h in files.handles
      modifies vol.cache, vol.cache.table
      ensures Valid() && files.handles[h].sector in vol.inodes
      ensures forall j | j in vol.inodes :: Contents(j) == old(Contents(j))
      ensures buffer == Slice(Contents(files.handles[h].sector), offset, size)
    {
      hide *;
      Parts();
      HandleFile(h);
      buffer := vol.ReadAt(files.handles[h].sector, size, offset);
      Whole();
    }

    /** Writing to file s is refused, or there is room for it. */
    ghost predicate CanWrite(s: nat, end: nat)
      requires s in vol.inodes
      reads files, vol, vol.cache, vol.cache.table
    {
      !Denied(files.handles, s) && end > vol.inodes[s].length ==> vol.Room(s, end) && vol.Unstale(s, end)
    }

    /** file_write_at: refused, with nothing changed, exactly while some handle on the file denies
        writes; otherwise the bytes are in the file, which grows if it has to. */
    method Write(h: nat, data: seq<Byte>, offset: nat, junk: Table, junk1: Table, junk2: Table) returns (written: nat)
      requires Valid() && h in files.handles && files.handles[h].sector in vol.inodes
      requires CanWrite(files.handles[h].sector, offset + |data|)
      modifies vol, vol.cache, vol.cache.table
      ensures Valid() && vol.inodes.Keys == old(vol.inodes.Keys)
      ensures written == if Denied(files.handles, files.handles[h].sector) then 0 else |data|
      ensures Denied(files.handles, files.handles[h].sector) ==>
                vol.inodes == old(vol.inodes) && vol.used == old(vol.used) && vol.cache.disk == old(vol.cache.disk)
      ensures Contents(files.handles[h].sector)
              == AfterWrite(old(Contents(files.handles[h].sector)), Denied(files.handles, files.handles[h].sector), offset, data)
      ensures forall j | j in vol.inodes && j != files.handles[h].sector ::
          vol.inodes[j] == old(vol.inodes)[j] && Contents(j) == old(Contents(j))
      ensures WroteTo(old(vol.used), old(vol.index), files.handles[h].sector, offset, written)
    {
      hide *;
      Parts();
      HandleFile(h);
      var s := files.handles[h].sector;
      var count := files.DenyCount(h);
      Refused(files.handles, s, count);
      if count == 0 { MayWrite(s, offset + |data|); }
      written := WriteCounted(s, data, offset, count, junk, junk1, junk2);
      OpenUpdate(files.list, old(vol.memory), files.list, vol.memory, s);
      Whole();
    }

    /** File s took the sectors it needed for the write, and the last sector written is in the cache, to
        be written back. */
    ghost predicate WroteTo(used: seq<bool>, index: Indexes, s: nat, offset: nat, written: nat)
      reads vol, vol.cache, vol.cache.table
    {
      && s in index && s in vol.index && vol.index == index[s := vol.index[s]]
      && Grabbed(used, index[s], vol.index[s], vol.used)
      && (written > 0 ==> Shown(vol.index[s], vol.cache.table[..], offset + written - 1))
    }

    /** inode_write_at with the number of handles that deny. */
    method WriteCounted(s: nat, data: seq<Byte>, offset: nat, count: nat, junk: Table, junk1: Table, junk2: Table)
      returns (written: nat)
      requires vol.Valid() && s in vol.memory && s in vol.inodes && Accounted(vol.used, vol.index, reserved + lost)
      requires count == 0 && offset + |data| > vol.inodes[s].length ==> vol.Room(s, offset + |data|) && vol.Unstale(s, offset + |data|)
      modifies vol, vol.cache, vol.cache.table
      ensures vol.Valid() && Accounted(vol.used, vol.index, reserved + lost)
      ensures vol.inodes.Keys == old(vol.inodes.Keys) && vol.memory.Keys == old(vol.memory.Keys)
      ensures written == if count > 0 then 0 else |data|
      ensures count > 0 ==> vol.inodes == old(vol.inodes) && vol.used == old(vol.used) && vol.cache.disk == old(vol.cache.disk)
      ensures vol.Contents(s) == AfterWrite(old(vol.Contents(s)), count > 0, offset, data)
      ensures forall j | j in vol.inodes && j != s :: vol.inodes[j] == old(vol.inodes)[j] && vol.Contents(j) == old(vol.Contents(j))
      ensures WroteTo(old(vol.used), old(vol.index), s, offset, written)
    {
      hide *;
      vol.KeysAgree();
      ghost var used, index, c := vol.used, vol.index, vol.Contents(s);
      written := vol.WriteAt(s, data, offset, count, junk, junk1, junk2);
      AfterWriteIs(c, count, offset, data);
      assert vol.index == index[s := vol.index[s]];
      AccountedGrab(used, index, reserved + lost, s, vol.index[s], vol.used);
      WroteIs(used, index, s, offset, written);
    }

    lemma WroteIs(used: seq<bool>, index: Indexes, s: nat, offset: nat, written: nat)
      requires s in index && s in vol.index && vol.index == index[s := vol.index[s]]
      requires Grabbed(used, index[s], vol.index[s], vol.used)
      requires written > 0 ==> Shown(vol.index[s], vol.cache.table[..], offset + written - 1)
      ensures WroteTo(used, index, s, offset, written)
    {
      hide Grabbed, Shown;
    }

    lemma MayWrite(s: nat, end: nat)
      requires s in vol.inodes && CanWrite(s, end) && !Denied(files.handles, s)
      ensures end > vol.inodes[s].length ==> vol.Room(s, end) && vol.Unstale(s, end)
    {
    }

    /** file_deny_write and file_allow_write */
    method SetDeny(h: nat, deny: bool)
      requires Valid() && h in files.handles
      modifies files
      ensures Valid() && files.handles == old(files.handles)[h := Files.Handle(old(files.handles)[h].sector, deny)]
    {
      hide *;
      Parts();
      ghost var list := files.list;
      if deny {
        files.DenyWrite(h);
      } else {
        files.AllowWrite(h);
      }
      OpenSame(list, files.list, vol.memory);
      Whole();
    }

    /** inode_remove of an open file. */
    method Remove(s: nat)
      requires Valid() && Files.IsOpen(files.list, s)
      modifies files
      ensures Valid() && files.handles == old(files.handles)
      ensures Files.IsOpen(files.list, s) && Files.Entry(files.list, s) == old(Files.Entry(files.list, s)).(removed := true)
    {
      hide *;
      Parts();
      ghost var list := files.list;
      files.Remove(s);
      OpenSame(list, files.list, vol.memory);
      Whole();
    }

    /** file_close: the last close of a file writes its inode to the device or, if the file was removed,
        gives its sectors back; no other close does either. */
    method Close(h: nat)
      requires Valid() && h in files.handles && Files.IsOpen(files.list, files.handles[h].sector)
      modifies files, vol, vol.cache
      ensures Valid() && files.handles == old(files.handles) - {h}
      ensures var s := old(files.handles)[h].sector;
              && s in old(vol.index)
              && var last := Files.Openers(files.handles, s) == {};
                 var removed := old(Files.Entry(files.list, files.handles[h].sector)).removed;
                 && (if last && removed
                     then vol.inodes == old(vol.inodes) - {s} && Freed(old(vol.used), Holding(old(vol.index), s), vol.used)
                     else vol.inodes == old(vol.inodes) && vol.used == old(vol.used))
                 && (if last && !removed
                     then s in vol.inodes && s !in vol.memory && s < |vol.cache.disk|
                          && vol.cache.disk == old(vol.cache.disk)[s := Image(vol.inodes[s])]
                     else vol.cache.disk == old(vol.cache.disk))
      ensures forall j | j in vol.inodes :: j in old(vol.inodes) && Contents(j) == old(Contents(j))
    {
      hide *;
      Parts();
      var s := files.handles[h].sector;
      HandleFile(h);
      ghost var used, inodes, index, list, memory := vol.used, vol.inodes, vol.index, files.list, vol.memory;
      var last, release := files.Close(h);
      if release {
        vol.Remove(s);
        AccountedGone(used, inodes, index, reserved + lost, s, Holding(index, s), vol.used);
        assert (reserved + lost) + (Holding(index, s) - Holding(index, s)) == reserved + lost;
      } else if last {
        vol.Store(s);
      }
      OpenUpdate(list, memory, files.list, vol.memory, s);
      Whole();
    }

    /** There is room for a new file once its inode has a sector, and none of its sectors is in the
        cache. */
    ghost predicate RoomToCreate(length: nat)
      reads vol, vol.cache, vol.cache.table
    {
      var i := FirstFree(vol.used, 0);
      i < |vol.used| ==> RoomIn(vol.cache.disk, vol.used[i := true], vol.cache.table[..], i, length)
    }

    /** filesys_create, apart from the directory: a sector for the inode, then the inode, and if no
        entry for it can be added to the directory only that sector is given back. The sectors of
        the new file's data are lost then. */
    method Create(length: nat, isDir: bool, enough: bool, linked: bool, junk: Table, junk1: Table, junk2: Table)
      returns (r: Option<nat>)
      requires Valid()
      modifies this`lost, vol, vol.cache
      ensures r.Some? <==> enough && linked && SomeFreeSector(old(vol.used))
      ensures r.Some? ==> r.value == FirstFree(old(vol.used), 0) < |old(vol.used)| && r.value !in old(vol.inodes)
                          && CreatedAt(old(vol.cache.disk), old(vol.used), old(vol.inodes), r.value, length, isDir)
      ensures vol.memory == old(vol.memory)
      ensures (enough ==> old(RoomToCreate(length))) ==>
                && Valid() && (r.None? ==> vol.inodes == old(vol.inodes)) && (r.Some? ==> Contents(r.value) == Zeros(length))
                && (forall j | j in old(vol.inodes) ::
                      j in vol.inodes && vol.inodes[j] == old(vol.inodes)[j] && Contents(j) == old(Contents(j)))
                && old(lost) <= lost
                && |lost - old(lost)| == if enough && !linked && SomeFreeSector(old(vol.used)) then Need(SectorCount(length)) else 0
    {
      hide *;
      Parts();
      ghost var used, room := vol.used, enough ==> RoomToCreate(length);
      if enough && room { RoomFirst(length); }
      var a := vol.Allocate();
      AllocatedIs(used, a);
      assert lost - lost == {};
      if a.None? {
        Whole();
        return None;
      }
      AccountedMark(used, vol.index, reserved + lost, a.value);
      AccountedBelow(used, vol.index, reserved + lost, a.value);
      if enough && room { RoomNow(used, a.value, length); }
      AsideNow(a.value);
      r := CreateIn(a.value, length, isDir, enough, linked, junk, junk1, junk2);
      if r.Some? { CreatedOn(old(vol.cache.disk), used, old(vol.inodes), a.value, length, isDir); }
    }

    /** The file in sector i was made there, starting from the given device and free map. */
    ghost predicate CreatedAt(disk: seq<Block>, used: seq<bool>, inodes: Inodes, i: nat, length: nat, isDir: bool)
      reads vol, vol.cache
    {
      i < |used| && CreatedFrom(disk, used[i := true], inodes, i, length, isDir)
    }

    ghost predicate CreatedFrom(disk: seq<Block>, used: seq<bool>, inodes: Inodes, i: nat, length: nat, isDir: bool)
      reads vol, vol.cache
    {
      && i in vol.inodes && i in vol.index && vol.inodes == inodes[i := vol.inodes[i]]
      && vol.inodes[i].length == length && vol.inodes[i].isDir == isDir && vol.inodes[i].parent == ROOT_DIR_SECTOR
      && Made(disk, used, i, vol.cache.disk, vol.used, vol.inodes[i], vol.index[i])
    }

    lemma CreatedOn(disk: seq<Block>, used: seq<bool>, inodes: Inodes, i: nat, length: nat, isDir: bool)
      requires i < |used| && CreatedFrom(disk, used[i := true], inodes, i, length, isDir)
      ensures CreatedAt(disk, used, inodes, i, length, isDir)
    {
    }

    lemma CreatedIs(disk: seq<Block>, used: seq<bool>, inodes: Inodes, i: nat, length: nat, isDir: bool)
      requires i in vol.inodes && i in vol.index && vol.inodes == inodes[i := vol.inodes[i]]
      requires vol.inodes[i].length == length && vol.inodes[i].isDir == isDir && vol.inodes[i].parent == ROOT_DIR_SECTOR
      requires Made(disk, used, i, vol.cache.disk, vol.used, vol.inodes[i], vol.index[i])
      ensures CreatedFrom(disk, used, inodes, i, length, isDir)
    {
    }

    lemma RoomFirst(length: nat)
      requires RoomToCreate(length)
      ensures var i := FirstFree(vol.used, 0);
              i < |vol.used| ==> RoomIn(vol.cache.disk, vol.used[i := true], vol.cache.table[..], i, length)
    {
    }

    lemma RoomNow(used: seq<bool>, i: nat, length: nat)
      requires i < |used| && i == FirstFree(used, 0) && vol.used == used[i := true]
      requires RoomIn(vol.cache.disk, used[i := true], vol.cache.table[..], i, length)
      ensures vol.RoomForNew(i, length)
    {
      hide RoomIn;
    }

    /** Sector i has been set aside for an inode. */
    ghost predicate SetAside(i: nat)
      reads this, files, vol, vol.cache, vol.cache.table
    {
      && files.Valid() && vol.Valid() && OpenOnes(files.list, vol.memory) && 0 in reserved
      && i !in reserved + lost && Accounted(vol.used, vol.index, reserved + lost + {i})
    }

    lemma AsideNow(i: nat)
      requires files.Valid() && vol.Valid() && OpenOnes(files.list, vol.memory) && 0 in reserved
      requires i !in reserved + lost && Accounted(vol.used, vol.index, reserved + lost + {i})
      ensures SetAside(i)
    {
      hide Accounted;
    }

    lemma AsideParts(i: nat)
      requires SetAside(i)
      ensures files.Valid() && vol.Valid() && OpenOnes(files.list, vol.memory) && 0 in reserved
      ensures i !in reserved + lost && Accounted(vol.used, vol.index, reserved + lost + {i})
      ensures vol.inodes.Keys == vol.index.Keys && vol.memory.Keys <= vol.inodes.Keys
    {
      hide Accounted;
    }

    method CreateIn(i: nat, length: nat, isDir: bool, enough: bool, linked: bool, junk: Table, junk1: Table, junk2: Table)
      returns (r: Option<nat>)
      requires SetAside(i) && vol.Valid()
      modifies this`lost, vol, vol.cache
      ensures r == (if enough && linked then Some(i) else None) && i !in old(vol.inodes) && vol.memory == old(vol.memory)
      ensures r.Some? ==> CreatedFrom(old(vol.cache.disk), old(vol.used), old(vol.inodes), i, length, isDir)
      ensures (enough ==> old(vol.RoomForNew(i, length))) ==>
                && Valid() && (r.None? ==> vol.inodes == old(vol.inodes))
                && (r.Some? ==> i in vol.inodes && Contents(i) == Zeros(length))
                && (forall j | j in old(vol.inodes) ::
                      j in vol.inodes && vol.inodes[j] == old(vol.inodes)[j] && Contents(j) == old(vol.Contents(j)))
                && old(lost) <= lost && |lost - old(lost)| == if enough && !linked then Need(SectorCount(length)) else 0
    {
      hide *;
      AsideParts(i);
      ghost var used, inodes, index, others := vol.used, vol.inodes, vol.index, reserved + lost;
      ghost var room := enough ==> vol.RoomForNew(i, length);
      SetAsideIsFree(used, index, others + {i}, i);
      assert others + {i} - {i} == others;
      assert lost - lost == {};
      var ok := vol.Create(i, length, isDir, enough, junk, junk1, junk2);
      if !ok {
        AccountedMark(used, index, others + {i}, i);
        vol.GiveBack(i);
        Whole();
        return None;
      }
      if room {
        AccountedNew(used, index, others + {i}, i, vol.index[i], vol.used);
        Whole();
        Parts();
      }
      if linked {
        CreatedIs(old(vol.cache.disk), used, inodes, i, length, isDir);
        return Some(i);
      }
      MadeKeeps(old(vol.cache.disk), used, i, vol.cache.disk, vol.used, vol.inodes[i], vol.index[i], i);
      ghost var used', inodes', index' := vol.used, vol.inodes, vol.index;
      if room {
        vol.FileHolds(i);
        LostCount(used', inodes', index', others, vol.cache.disk, i);
      }
      vol.Abandon(i);
      assert vol.inodes == inodes;
      if room {
        AccountedGone(used', inodes', index', others, i, {i}, vol.used);
        lost := lost + Owned(index'[i]);
        assert others + (Holding(index', i) - {i}) == reserved + lost;
        assert lost - old(lost) == Owned(index'[i]);
        Whole();
      }
      return None;
    }
  }

  /** What a write leaves of the bytes c. */
  ghost function AfterWrite(c: seq<Byte>, denied: bool, offset: nat, data: seq<Byte>): seq<Byte> {
    if denied then c else Splice(ZeroExtended(c, offset + |data|), offset, data)
  }

  lemma AfterWriteIs(c: seq<Byte>, count: nat, offset: nat, data: seq<Byte>)
    ensures AfterWrite(c, count > 0, offset, data) == if count > 0 then c else Splice(ZeroExtended(c, offset + |data|), offset, data)
  {
  }

  lemma Refused(handles: Files.Handles, s: nat, count: nat)
    requires count > 0 <==> exists g :: g in handles && handles[g].sector == s && handles[g].deny
    ensures count > 0 <==> Denied(handles, s)
  {
  }

  // ----- Open inodes are in memory -----

  lemma OpenUpdate(a: seq<Files.OpenInode>, m: Inodes, b: seq<Files.OpenInode>, n: Inodes, s: nat)
    requires OpenOnes(a, m) && (Files.IsOpen(b, s) <==> s in n)
    requires forall t: nat | t != s :: Files.IsOpen(b, t) <==> Files.IsOpen(a, t)
    requires forall t: nat | t != s :: t in n <==> t in m
    ensures OpenOnes(b, n)
  {
    hide Files.IsOpen;
  }

  lemma OpenSame(a: seq<Files.OpenInode>, b: seq<Files.OpenInode>, m: Inodes)
    requires OpenOnes(a, m) && forall t: nat :: Files.IsOpen(b, t) <==> Files.IsOpen(a, t)
    ensures OpenOnes(b, m)
  {
    hide Files.IsOpen;
  }

  ghost predicate SomeFreeSector(used: seq<bool>) {
    exists s :: 0 <= s < |used| && !used[s]
  }

  lemma AllocatedIs(used: seq<bool>, a: Option<nat>)
    requires a.None? ==> forall s | 0 <= s < |used| :: used[s]
    requires a.Some? ==> a.value < |used| && !used[a.value] && forall s | 0 <= s < a.value :: used[s]
    ensures a.Some? <==> SomeFreeSector(used)
    ensures a.Some? ==> a.value == FirstFree(used, 0)
  {
  }

  lemma AccountedBelow(used: seq<bool>, index: Indexes, others: set<nat>, s: nat)
    requires Accounted(used, index, others) && s < |used| && !used[s]
    ensures s !in others
  {
    hide Owner;
  }

  lemma SetAsideIsFree(used: seq<bool>, index: Indexes, others: set<nat>, i: nat)
    requires Accounted(used, index, others) && i in others
    ensures i < |used| && used[i] && i !in index && InUse(used, {i})
    ensures forall j | j in index :: i !in Owned(index[j]) && i !in Holding(index, j)
  {
    hide Holding, Owned;
    NoFiles(index, i);
  }

  /** What is lost with the new file i: all its sectors but the one of the inode. */
  lemma LostCount(used: seq<bool>, inodes: Inodes, index: Indexes, others: set<nat>, disk: seq<Block>, i: nat)
    requires Accounted(used, index, others) && Layout(used, inodes, index) && i in index && i in inodes
    requires Rep(inodes[i], disk, index[i]) && |index[i].data| == SectorCount(inodes[i].length)
    ensures Holding(index, i) - {i} == Owned(index[i]) && Owned(index[i]) !! others && {i} <= Holding(index, i)
    ensures |Owned(index[i])| == Need(SectorCount(inodes[i].length))
  {
    hide Owned, Need, SectorCount;
    RepCounts(inodes[i], disk, index[i]);
    OwnedCount(index[i]);
    assert forall s | s in Owned(index[i]) :: s in Holding(index, i);
    assert forall s | s in Owned(index[i]) :: Owner(index, s);
  }
}

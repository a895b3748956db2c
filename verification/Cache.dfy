/** The 64-slot write-back buffer cache (src/filesys/buffer-cache.c) over a block device. The
    device is a sequence of 512-byte sectors; an access past its end panics in the source and
    is a precondition here. `View` is what clients of the cache see: the device with the
    cached sectors laid over it. */
module Cache {
  import opened Common

  const SECTOR_SIZE: nat := 512
  const CACHE_SIZE: nat := 64

  type Block = s: seq<Byte> | |s| == SECTOR_SIZE witness seq(SECTOR_SIZE, _ => 0)

  function ZeroBlock(): (b: Block)
    ensures forall i | 0 <= i < SECTOR_SIZE :: b[i] == 0
  {
    seq(SECTOR_SIZE, _ => 0)
  }

  datatype Entry = Entry(occupied: bool, accessed: bool, dirty: bool, sector: nat, block: Block)

  const EMPTY_ENTRY := Entry(false, false, false, 0, ZeroBlock())

  // ----- The cached view of the device -----

  ghost predicate Holds(table: seq<Entry>, i: int, s: nat) {
    0 <= i < |table| && table[i].occupied && table[i].sector == s
  }

  ghost predicate Resident(table: seq<Entry>, s: nat) {
    exists i :: Holds(table, i, s)
  }

  /** The sector is in a slot that is still to be written back. */
  ghost predicate Pending(table: seq<Entry>, s: nat) {
    exists i :: Holds(table, i, s) && table[i].dirty
  }

  /** No sector is cached twice, every cached sector exists, and a clean slot is a copy. */
  ghost predicate Coherent(table: seq<Entry>, disk: seq<Block>) {
    && |table| == CACHE_SIZE
    && (forall i, j, s | Holds(table, i, s) && Holds(table, j, s) :: i == j)
    && (forall i | 0 <= i < |table| && table[i].occupied ::
          table[i].sector < |disk| && (!table[i].dirty ==> table[i].block == disk[table[i].sector]))
  }

  ghost function Sector(table: seq<Entry>, disk: seq<Block>, s: nat): (b: Block)
    requires s < |disk|
  {
    if Resident(table, s) then
      var i :| Holds(table, i, s); table[i].block
    else disk[s]
  }

  ghost function View(table: seq<Entry>, disk: seq<Block>): (v: seq<Block>)
    ensures |v| == |disk|
    ensures forall s | 0 <= s < |disk| :: v[s] == Sector(table, disk, s)
  {
    seq(|disk|, s requires 0 <= s < |disk| => Sector(table, disk, s))
  }

  lemma ViewAt(table: seq<Entry>, disk: seq<Block>, i: nat)
    requires Coherent(table, disk) && i < |table| && table[i].occupied
    ensures View(table, disk)[table[i].sector] == table[i].block
  {
    assert Holds(table, i, table[i].sector);
  }

  /** Writing a slot's block back to the device, and marking the slot clean or emptying it,
      changes nothing a client can see. */
  lemma FlushSlot(table: seq<Entry>, disk: seq<Block>, i: nat, e: Entry)
    requires Coherent(table, disk) && i < |table| && table[i].occupied
    requires e.sector == table[i].sector && e.block == table[i].block
    ensures var disk' := disk[e.sector := e.block];
            Coherent(table[i := e], disk') && View(table[i := e], disk') == View(table, disk)
  {
    var disk', t' := disk[e.sector := e.block], table[i := e];
    assert forall j, s :: Holds(t', j, s) ==> Holds(table, j, s);
    assert Holds(table, i, e.sector);
    assert forall j | 0 <= j < |t'| && t'[j].occupied :: Holds(table, j, t'[j].sector);
    forall s | 0 <= s < |disk|
      ensures Sector(t', disk', s) == Sector(table, disk, s)
    {
      ViewAt(table, disk, i);
      if s != e.sector {
        assert forall j :: Holds(t', j, s) <==> Holds(table, j, s);
      } else if e.occupied {
        assert Holds(t', i, s);
      } else {
        assert Holds(table, i, s);
      }
    }
  }

  /** Loading a sector that is not cached into an empty slot changes nothing visible. */
  lemma LoadSlot(table: seq<Entry>, disk: seq<Block>, i: nat, e: Entry)
    requires Coherent(table, disk) && i < |table| && !table[i].occupied
    requires e.occupied && e.sector < |disk| && e.block == disk[e.sector] && !Resident(table, e.sector)
    ensures Coherent(table[i := e], disk) && View(table[i := e], disk) == View(table, disk)
  {
    var t' := table[i := e];
    assert forall j, s :: Holds(t', j, s) <==> if j == i then s == e.sector else Holds(table, j, s);
    assert forall j | 0 <= j < |t'| && t'[j].occupied && j != i :: Holds(table, j, t'[j].sector);
    forall s | 0 <= s < |disk|
      ensures Sector(t', disk, s) == Sector(table, disk, s)
    {
      if s == e.sector { assert Holds(t', i, s); }
      else { assert forall j :: Holds(t', j, s) <==> Holds(table, j, s); }
    }
  }

  /** Changing the block of a cached sector, marked dirty, is a write to the view. */
  lemma StoreSlot(table: seq<Entry>, disk: seq<Block>, i: nat, e: Entry)
    requires Coherent(table, disk) && i < |table| && table[i].occupied
    requires e.occupied && e.dirty && e.sector == table[i].sector
    ensures Coherent(table[i := e], disk)
    ensures View(table[i := e], disk) == View(table, disk)[e.sector := e.block]
  {
    var t' := table[i := e];
    assert forall j, s :: Holds(t', j, s) <==> Holds(table, j, s);
    assert forall j | 0 <= j < |t'| && t'[j].occupied :: Holds(table, j, t'[j].sector);
    forall s | 0 <= s < |disk|
      ensures Sector(t', disk, s) == View(table, disk)[e.sector := e.block][s]
    {
      if s == e.sector { assert Holds(t', i, s); }
    }
  }

  /** Going straight to the device: visible exactly when the sector is not cached or the cached
      block is the one written, and harmless exactly when no clean slot then differs from it. */
  lemma DeviceWrite(table: seq<Entry>, disk: seq<Block>, s: nat, b: Block)
    requires Coherent(table, disk) && s < |disk|
    ensures View(table, disk[s := b]) == if Resident(table, s) then View(table, disk) else View(table, disk)[s := b]
    ensures View(table, disk[s := b])[s] == b <==> !Resident(table, s) || View(table, disk)[s] == b
    ensures Coherent(table, disk[s := b]) <==> forall i | Holds(table, i, s) :: table[i].dirty || table[i].block == b
  {
    forall x | 0 <= x < |disk|
      ensures Sector(table, disk[s := b], x) == if x == s && !Resident(table, s) then b else Sector(table, disk, x)
    {
    }
    assert forall j | 0 <= j < |table| && table[j].occupied :: Holds(table, j, table[j].sector);
  }

  /** For example, zeroing on the device a sector whose old contents are still cached. */
  lemma StaleBlock() returns (table: seq<Entry>, disk: seq<Block>)
    ensures Coherent(table, disk) && |disk| == 1
    ensures View(table, disk[0 := ZeroBlock()])[0] != ZeroBlock()
  {
    var ones: Block := seq(SECTOR_SIZE, _ => 1);
    table := seq(CACHE_SIZE, _ => EMPTY_ENTRY)[0 := Entry(true, false, true, 0, ones)];
    disk := [ones];
    assert Holds(table, 0, 0) && forall i, s | Holds(table, i, s) :: i == 0;
    DeviceWrite(table, disk, 0, ZeroBlock());
    ViewAt(table, disk, 0);
    assert ones[0] != ZeroBlock()[0];
  }

  // ----- Flushing slots -----

  /** The slots of the cache and the device. */
  datatype Slots = Slots(table: seq<Entry>, disk: seq<Block>)

  /** Slot i is written back if it is dirty, and then emptied or kept as a clean copy. */
  function Flush(c: Slots, i: nat, drop: bool): (r: Slots)
    requires i < |c.table|
    ensures |r.table| == |c.table| && |r.disk| == |c.disk|
  {
    var e := c.table[i];
    var write := e.occupied && e.dirty && e.sector < |c.disk|;
    var clean := if e.occupied && e.dirty then e.(dirty := false) else e;
    Slots(c.table[i := if drop then e.(occupied := false, dirty := false, accessed := false) else clean],
          if write then c.disk[e.sector := e.block] else c.disk)
  }

  /** The first n slots, one after the other. */
  function FlushFirst(c: Slots, n: nat, drop: bool): (r: Slots)
    requires n <= |c.table|
    ensures |r.table| == |c.table| && |r.disk| == |c.disk|
  {
    if n == 0 then c else Flush(FlushFirst(c, n - 1, drop), n - 1, drop)
  }

  /** A device with no dirty slot over it is its own view. */
  lemma CleanView(table: seq<Entry>, disk: seq<Block>)
    requires Coherent(table, disk)
    requires forall i | 0 <= i < |table| && table[i].occupied :: !table[i].dirty
    ensures View(table, disk) == disk
  {
    forall s | 0 <= s < |disk|
      ensures Sector(table, disk, s) == disk[s]
    {
    }
  }

  // ----- The round-robin hand -----

  /** The C remainder, which takes the sign of the dividend. */
  function TruncatedRemainder(a: int, m: nat): (r: int)
    requires m > 0
  {
    if a >= 0 then a % m else -((-a) % m)
  }

  /** The value of a 32-bit signed counter incremented k times from zero. */
  function Counter32(k: nat): (c: int)
    ensures -0x8000_0000 <= c < 0x8000_0000
  {
    var u := k % 0x1_0000_0000;
    if u < 0x8000_0000 then u else u - 0x1_0000_0000
  }

  /** The slot the source computes for the k-th eviction is a slot of the table for the first
      2^31 evictions; after that only the multiples of 64 are safe, until the counter has gone
      all the way round. */
  lemma HandInRange(k: nat)
    ensures var i := TruncatedRemainder(Counter32(k), CACHE_SIZE);
            0 <= i < CACHE_SIZE <==> k % 0x1_0000_0000 <= 0x8000_0000 || k % CACHE_SIZE == 0
    ensures k <= 0x8000_0000 ==> TruncatedRemainder(Counter32(k), CACHE_SIZE) == k % CACHE_SIZE
  {
    var u := k % 0x1_0000_0000;
    assert u % 64 == k % 64 by { ModOfMod(k); }
    if u >= 0x8000_0000 { NegatedMod(u); }
  }

  /** For example, the slot for eviction 2^31 + 1 is -63. */
  lemma HandOverflows()
    ensures TruncatedRemainder(Counter32(0x8000_0001), CACHE_SIZE) == -63
  {
  }

  lemma ModOfMod(k: nat)
    ensures (k % 0x1_0000_0000) % 64 == k % 64
  {
    var q := k / 0x1_0000_0000;
    assert k == 64 * (q * 0x400_0000) + k % 0x1_0000_0000;
  }

  lemma NegatedMod(u: nat)
    requires 0x8000_0000 <= u < 0x1_0000_0000
    ensures (0x1_0000_0000 - u) % 64 == 0 <==> u % 64 == 0
  {
  }

  // ----- The cache -----

  /** `b` with `data` copied in at `ofs`. */
  function Patch(b: Block, ofs: nat, data: seq<Byte>): (r: Block)
    requires ofs + |data| <= SECTOR_SIZE
    ensures forall i | 0 <= i < SECTOR_SIZE :: r[i] == if ofs <= i < ofs + |data| then data[i - ofs] else b[i]
  {
    b[..ofs] + data + b[ofs + |data|..]
  }

  /** An empty slot may hold anything. */
  lemma EmptySlot(table: seq<Entry>, disk: seq<Block>, i: nat, e: Entry)
    requires Coherent(table, disk) && i < |table| && !table[i].occupied && !e.occupied
    ensures Coherent(table[i := e], disk) && View(table[i := e], disk) == View(table, disk)
    ensures forall s :: Resident(table[i := e], s) <==> Resident(table, s)
  {
    var t' := table[i := e];
    assert forall j, s :: Holds(t', j, s) <==> Holds(table, j, s);
    forall s | 0 <= s < |disk|
      ensures Sector(t', disk, s) == Sector(table, disk, s)
    {
    }
  }

  /** The sectors cached in `after` were cached in `before`, except possibly `s`. */
  ghost predicate AtMostLoads(before: seq<Entry>, after: seq<Entry>, s: nat) {
    forall x | Resident(after, x) && x != s :: Resident(before, x)
  }

  class BufferCache {
    const table: array<Entry>
    var hand: nat
    var disk: seq<Block>

    ghost predicate Valid()
      reads this, table
    {
      table.Length == CACHE_SIZE && Coherent(table[..], disk)
    }

    ghost function Contents(): (v: seq<Block>)
      reads this, table
    {
      View(table[..], disk)
    }

    /** cache_init, on a device with the given contents. */
    constructor (disk: seq<Block>)
      ensures Valid() && this.disk == disk && Contents() == disk && fresh(table)
      ensures forall s :: !Resident(table[..], s)
    {
      this.disk := disk;
      hand := 0;
      table := new Entry[CACHE_SIZE](_ => EMPTY_ENTRY);
      new;
      assert forall i | 0 <= i < table.Length :: table[i] == EMPTY_ENTRY;
      CleanView(table[..], disk);
    }

    /** cache_lookup: the slot holding the sector, or -1. */
    method Lookup(s: nat) returns (idx: int)
      requires Valid()
      ensures idx == -1 <==> !Resident(table[..], s)
      ensures idx != -1 ==> Holds(table[..], idx, s)
    {
      for i := 0 to CACHE_SIZE
        invariant forall j | 0 <= j < i :: !Holds(table[..], j, s)
      {
        if table[i].sector == s && table[i].occupied {
          assert Holds(table[..], i, s);
          return i;
        }
      }
      return -1;
    }

    /** cache_get_free_entry: claims the first empty slot, or returns -1 if all are occupied. */
    method GetFreeEntry() returns (idx: int)
      requires Valid()
      modifies table
      ensures idx == -1 ==> table[..] == old(table[..]) && forall i | 0 <= i < CACHE_SIZE :: table[i].occupied
      ensures idx != -1 ==> 0 <= idx < CACHE_SIZE && !old(table[idx].occupied)
                            && (forall i | 0 <= i < idx :: old(table[i].occupied))
                            && table[..] == old(table[..])[idx := old(table[idx]).(occupied := true)]
    {
      for i := 0 to CACHE_SIZE
        invariant table[..] == old(table[..])
        invariant forall j | 0 <= j < i :: table[j].occupied
      {
        if !table[i].occupied {
          table[i] := table[i].(occupied := true);
          return i;
        }
      }
      return -1;
    }

    /** cache_evict: a slot to use, claimed if one was empty and otherwise taken over in round
        robin, its block written back first if dirty. Without that slot the cache shows what it
        showed before. */
    method Evict() returns (idx: nat)
      requires Valid()
      modifies this, table
      ensures idx < CACHE_SIZE && table.Length == CACHE_SIZE
      ensures if forall i | 0 <= i < CACHE_SIZE :: old(table[i].occupied)
              then hand == old(hand) + 1 && idx == hand % CACHE_SIZE
                   && Slots(table[..], disk) == Flush(old(Slots(table[..], disk)), idx, true)
              else hand == old(hand) && !old(table[idx].occupied)
      ensures var rest := table[..][idx := EMPTY_ENTRY];
              && Coherent(rest, disk) && View(rest, disk) == old(Contents())
              && forall s | Resident(rest, s) :: Resident(old(table[..]), s)
    {
      ghost var before, disk0 := table[..], disk;
      var free := GetFreeEntry();
      if free != -1 {
        idx := free;
        EmptySlot(before, disk, idx, EMPTY_ENTRY);
        assert table[..][idx := EMPTY_ENTRY] == before[idx := EMPTY_ENTRY];
      } else {
        hand := hand + 1;
        idx := hand % CACHE_SIZE;
        var e := table[idx];
        assert Holds(before, idx, e.sector);
        if e.dirty {
          disk := disk[e.sector := e.block];
        }
        table[idx] := e.(occupied := false, dirty := false, accessed := false);
        assert disk == disk0[e.sector := e.block];
        FlushSlot(before, disk0, idx, table[idx]);
        ghost var flushed := table[..];
        assert flushed == before[idx := table[idx]];
        assert Slots(flushed, disk) == Flush(Slots(before, disk0), idx, true);
        assert forall j, s :: Holds(flushed, j, s) ==> Holds(before, j, s);
        EmptySlot(flushed, disk, idx, EMPTY_ENTRY);
      }
      forall s | Resident(table[..][idx := EMPTY_ENTRY], s)
        ensures Resident(old(table[..]), s)
      {
        var j :| Holds(table[..][idx := EMPTY_ENTRY], j, s);
        assert Holds(before, j, s);
      }
    }

    /** The part cache_read and cache_write share: the slot of a sector, loaded if need be. */
    method Fetch(s: nat) returns (idx: nat)
      requires Valid() && s < |disk|
      modifies this, table
      ensures Valid() && Contents() == old(Contents()) && |disk| == old(|disk|)
      ensures Holds(table[..], idx, s) && AtMostLoads(old(table[..]), table[..], s)
    {
      var found := Lookup(s);
      if found != -1 {
        idx := found;
      } else {
        idx := Evict();
        ghost var rest := table[..][idx := EMPTY_ENTRY];
        assert !Resident(rest, s);
        table[idx] := table[idx].(occupied := true, sector := s, dirty := false, block := disk[s]);
        assert table[..] == rest[idx := table[idx]];
        LoadSlot(rest, disk, idx, table[idx]);
        assert Holds(table[..], idx, s);
        assert forall j, x | Holds(table[..], j, x) && x != s :: Holds(rest, j, x);
      }
    }

    /** cache_read */
    method Read(s: nat, ofs: nat, size: nat) returns (buffer: seq<Byte>)
      requires Valid() && s < |disk| && ofs + size <= SECTOR_SIZE
      modifies this, table
      ensures Valid() && Contents() == old(Contents()) && |disk| == old(|disk|)
      ensures AtMostLoads(old(table[..]), table[..], s) && Resident(table[..], s)
      ensures buffer == Contents()[s][ofs..ofs + size]
    {
      var idx := Fetch(s);
      ghost var t := table[..];
      ViewAt(t, disk, idx);
      buffer := table[idx].block[ofs..ofs + size];
      table[idx] := table[idx].(accessed := true);
      Touch(t, disk, idx, table[idx]);
      assert table[..] == t[idx := table[idx]];
    }

    /** cache_write */
    method Write(s: nat, ofs: nat, data: seq<Byte>)
      requires Valid() && s < |disk| && ofs + |data| <= SECTOR_SIZE
      modifies this, table
      ensures Valid() && Contents() == old(Contents())[s := Patch(old(Contents())[s], ofs, data)]
      ensures |disk| == old(|disk|) && AtMostLoads(old(table[..]), table[..], s) && Pending(table[..], s)
    {
      var idx := Fetch(s);
      ghost var t := table[..];
      ViewAt(t, disk, idx);
      table[idx] := table[idx].(accessed := true, dirty := true, block := Patch(table[idx].block, ofs, data));
      StoreSlot(t, disk, idx, table[idx]);
      assert table[..] == t[idx := table[idx]];
      assert forall j, x :: Holds(table[..], j, x) <==> Holds(t, j, x);
      assert Holds(table[..], idx, s);
    }

    /** cache_writeback: afterwards the device itself holds what clients saw. */
    method Writeback(last: bool)
      requires Valid()
      modifies this, table
      ensures Valid() && Contents() == old(Contents()) && disk == Contents()
      ensures forall s | Resident(table[..], s) :: Resident(old(table[..]), s) && !last
      ensures Slots(table[..], disk) == FlushFirst(old(Slots(table[..], disk)), CACHE_SIZE, last)
    {
      for i := 0 to CACHE_SIZE
        invariant Slots(table[..], disk) == FlushFirst(old(Slots(table[..], disk)), i, last)
        invariant Valid() && Contents() == old(Contents())
        invariant forall j | 0 <= j < i :: table[j].occupied ==> !table[j].dirty && !last
        invariant forall s | Resident(table[..], s) :: Resident(old(table[..]), s)
      {
        ghost var t, d := table[..], disk;
        var e := table[i];
        if e.occupied && e.dirty {
          disk := disk[e.sector := e.block];
          table[i] := e.(dirty := false);
        }
        if last {
          table[i] := table[i].(occupied := false, dirty := false, accessed := false);
        }
        assert table[..] == t[i := table[i]];
        assert Slots(table[..], disk) == Flush(Slots(t, d), i, last);
        if e.occupied {
          assert disk == d[e.sector := e.block];
          FlushSlot(t, d, i, table[i]);
        } else {
          EmptySlot(t, d, i, table[i]);
        }
        assert forall j, s :: Holds(table[..], j, s) ==> Holds(t, j, s);
      }
      CleanView(table[..], disk);
      assert last ==> forall j, s :: !Holds(table[..], j, s);
    }
  }

  lemma Touch(table: seq<Entry>, disk: seq<Block>, i: nat, e: Entry)
    requires Coherent(table, disk) && i < |table| && e == table[i].(accessed := e.accessed)
    ensures Coherent(table[i := e], disk) && View(table[i := e], disk) == View(table, disk)
    ensures forall s :: Resident(table[i := e], s) <==> Resident(table, s)
  {
    var t' := table[i := e];
    assert forall j, s :: Holds(t', j, s) <==> Holds(table, j, s);
    forall s | 0 <= s < |disk|
      ensures Sector(t', disk, s) == Sector(table, disk, s)
    {
    }
  }
}

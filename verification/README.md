# A verified model of a Pintos kernel

A Dafny model of the parts of this Pintos kernel that carry the most state: the file system (buffer
cache, free map, multi-level inodes, open files), threads with semaphores, locks and condition
variables, the memory allocators (bitmap, pages, blocks), the intrusive list with its merge sort, the
hash table, and the library code for 64-bit division, formatting, sorting, archive headers and
argument passing.

`dafny verify dfyconfig.toml` checks everything.

## How the model is laid out

- `Cache`, `Sectors`, `Inode`, `Plan`, `Growth`, `Grow`, `Free`, `FileSystem`, `Volume`: the storage
  stack. The device is a sequence of 512-byte sectors. `View` lays the cached sectors over it. An
  `Index` is the plain list of a file's data sectors with the sectors of its tables, and `Rep` says that
  an inode and the tables on the device describe it. `Plan` computes the index a file will have from the
  free map before it grows. On top, class `Volume` reads and writes files as byte sequences; the inode
  of a file that is not open is the image in its sector. Whatever reaches past the end of the device
  panics in the source and is a precondition.
- `Stale`, `StaleRuns`: what blocks left in the cache do to files that grow or are created later.
- `Files`, `Mount`: open files, in-memory inodes and their counters; class `Mount` joins them with the
  volume and accounts for every sector of the device in every state calls can lead to.
- `Scheduler`, `Synch`, `SynchInv`, `SynchSafety`, `SynchTheorems`, `SynchLaws`: threads and
  synchronization as a machine of atomic steps. What runs with interrupts disabled is one step; everything
  else can be interleaved at will. The theorems are about every state some run can reach; the laws say
  what each step does there, and what the steps of a run add up to.
- `Bitmap`, `Pages`, `Malloc`, `Heap`: the allocators, each on top of the one before.
- `StableSort`, `List`: doubly linked lists of heap objects; the merge sort is proved equal to
  insertion one by one, which is proved to be the unique stable sort.
- `Common`: notions shared by several parts.
- `Hash`, `HeapSort`, `Arithmetic`, `Stdio`, `Ustar`, `Arguments`: library code and the argument stack.

What is loops and assignments in the source is a method with loops, a class or an array algorithm
here; C integer widths are written out where they matter. Uninitialized arrays, the success of memory
allocations and the scheduler's choice of interleaving are parameters.

## Where the code does not do what one would expect

Where a property fails, the exact condition for it is stated, for all inputs.

- Growing a file inside a partly filled second-level table starts again at entry 0 of that table
  (src/filesys/inode.c:160-175), failed sector allocations go unnoticed (src/filesys/inode.c:116), and
  growth stops silently where the tables end (src/filesys/inode.c:156). `Grow.GrowsExactly`: the file is
  extended to the length asked for if and only if the tables reach that far, enough sectors are free and
  no such table is resumed. `Grow.ResumedBytes` says which bytes a resumed table loses, and
  `Grow.ResumeFails` grows a file to 142 and then to 143 sectors as the example.
- The comment of inode_create promises a false result when allocation fails. `Volumes.Volume.Create`: it
  reports success exactly if it gets memory. `Grow.RunsOut`: without enough free sectors growth takes all
  there are. The unset entries of a new inode are 0, so `Grow.Sector0Exactly`: creating a file of up to 13
  sectors zeroes sector 0, the inode of the free map, if and only if there are not enough free ones.
- Fresh sectors, tables and the inode of a new file are written on the device only, and freeing does not
  evict. `Stale.StaleExactly`: a file that grows or is created shows its old bytes followed by zeros,
  every other file its own, and the inodes on the device say the right thing, at once and after any later
  write-backs and evictions, if and only if each block cached over a sector to be taken is harmless: zero
  where the sector becomes data; clean, or equal to what the table lists, where it becomes a table; clean,
  or an inode with the right fields, where it becomes the sector of the new inode. Which sectors are
  taken, and for what, is a function of the free map before (`Plans.PlannedIs`). The examples write a file,
  remove it and create others: `StaleRuns.StaleBytes` ends with a wrong byte in a new file,
  `StaleRuns.StaleInode` with a wrong inode. `Volumes.Volume.Remove` says exactly when removal leaves stale
  blocks behind.
- When a new file cannot be entered in its directory, filesys_create releases the sector of the inode
  only (src/filesys/filesys.c:147-148). `Mounts.Mount.Create`: exactly then sectors are lost, namely all
  those of the data and the tables.
- The round-robin counter of the cache is a signed int: `Cache.HandInRange`, with `Cache.HandOverflows`.
- umod64 and smod64 return 32 bits. They are right for every dividend if and only if the divisor is at
  most 2^32, or at most 2^31 in magnitude: `Arithmetic.UmodDivisors` and `Arithmetic.SmodDivisors`, with
  `Arithmetic.RemainderLost` and `Arithmetic.SignedRemainderLost`. sdiv64 is exact except for the least
  integer divided by -1.
- malloc computes its page count in 32 bits. `Heaps.PagesSuffice`: it fails or returns enough for every
  size but the eleven greatest, for which it returns one page. calloc multiplies in 32 bits, and its test
  for that misses some products: `Heaps.ProductSuffices`, with `Heaps.ProductWrapsAround`.
- A negative width given by `*` sets the minus flag after the zero flag has been cleared where both are set
  (src/lib/stdio.c:400-421). `Stdio.FormatLength`: a number is printed as wide as asked for if and only if not
  both flags ask for padding, with `Stdio.PaddedTwice`.
- load frees its copy of the command line by the pointer strtok_r returned. `Arguments.LoadFreesName`: that
  passes the checks in free if and only if the line does not start with a space.
- The comment of inode_write_at says that growth is not implemented; the code grows the file, also for a
  write of zero bytes beyond the end, and the model follows the code.

## Model

| member | source | states |
|---|---|---|
| Cache.FlushSlot | src/filesys/buffer-cache.c:11-31 | writing a cached block back, and cleaning or emptying its slot, changes nothing a client sees |
| Cache.LoadSlot | src/filesys/buffer-cache.c:143-165 | loading an uncached sector into an empty slot changes nothing a client sees and caches no sector twice |
| Cache.StoreSlot | src/filesys/buffer-cache.c:112-133 | changing a cached block and marking it dirty is a write to the view |
| Cache.DeviceWrite | src/filesys/inode.c:117 | a write that bypasses the cache is visible exactly if the sector is not cached or cached with that very block, and leaves the cache coherent exactly if no clean slot then differs from it |
| Cache.StaleBlock | src/filesys/inode.c:117 | example of a bypassing write that clients do not see |
| Cache.CleanView | src/filesys/buffer-cache.c:11-31 | a device without dirty slots over it is its own view |
| Cache.HandInRange | src/filesys/buffer-cache.c:86-103 | the slot computed for the k-th eviction is a slot of the table if and only if the signed counter has not passed 2^31 or k is a multiple of 64 |
| Cache.HandOverflows | src/filesys/buffer-cache.c:86-103 | example of an eviction whose slot number is negative |
| Cache.BufferCache.constructor | src/filesys/buffer-cache.c:42-55 | an empty cache shows the device as it is |
| Cache.BufferCache.Lookup | src/filesys/buffer-cache.c:57-69 | finds the slot of a sector, -1 exactly if it is not cached |
| Cache.BufferCache.GetFreeEntry | src/filesys/buffer-cache.c:71-84 | claims the first empty slot, -1 exactly if all are occupied |
| Cache.BufferCache.Evict | src/filesys/buffer-cache.c:86-103 | yields an empty slot or else flushes the next one in round robin; without it the cache shows what it showed before |
| Cache.BufferCache.Fetch | src/filesys/buffer-cache.c:112-125 | the sector is cached afterwards and the view has not changed |
| Cache.BufferCache.Read | src/filesys/buffer-cache.c:143-165 | returns the bytes of the view and leaves the view alone |
| Cache.BufferCache.Write | src/filesys/buffer-cache.c:112-133 | the view changes in the given bytes of the given sector and nowhere else, and the sector is in a dirty slot |
| Cache.BufferCache.Writeback | src/filesys/buffer-cache.c:11-31 | all slots are flushed in order: the view stays, the device equals it afterwards, and the last write-back empties the cache |
| Sectors.TableRoundTrip | src/filesys/inode.c:129-141 | a table of 128 sector numbers survives being written to a sector and read back |
| Sectors.FirstFree | src/filesys/free-map.c:28-42 | the least free sector, if there is one |
| Sectors.SomeFree | src/filesys/free-map.c:28-42 | an allocation succeeds whenever a sector is free |
| Sectors.FreeCountSet | src/filesys/free-map.c:28-42 | marking a free sector leaves one free sector less |
| Sectors.TakeMore | src/filesys/free-map.c:28-42 | repeated first-fit allocation goes on where it stopped |
| Sectors.TakeIsLeast | src/filesys/free-map.c:28-42 | n first-fit allocations take exactly the n least free sectors, in ascending order |
| Sectors.FillSpec | src/filesys/inode.c:114-120 | with enough free sectors the allocation loop takes the next sectors of first fit, zeroes exactly those and enters them in order |
| Sectors.FillExactly | src/filesys/inode.c:114-120 | with or without enough free sectors: the entries get the sectors there are, the others keep their values, and exactly the sectors the entries then name are zeroed |
| Sectors.TakenUpAll | src/filesys/inode.c:114-120 | allocations that outnumber the free sectors leave none free |
| Inode.ImageRoundTrip | src/filesys/inode.c:223-264 | an inode written to its sector is read back as it was |
| Inode.SectorCount | src/filesys/inode.c:34-38 | the number of sectors is the least that holds the length |
| Inode.ByteToSectorFinds | src/filesys/inode.c:58-96 | byte_to_sector finds every byte of the file in the data sector the index lists for it, at all three levels, and fails exactly past the end |
| Inode.ByteToSectorInjective | src/filesys/inode.c:58-96 | two bytes are mapped to the same sector exactly if they are in the same sector of the file |
| Inode.ByteToSectorLooksUp | src/filesys/inode.c:58-96 | byte_to_sector finds the table entry of the sector the byte is in, whatever the tables hold |
| Plans.DirectPlan | src/filesys/inode.c:113-120 | direct blocks take the next sectors in order |
| Plans.IndirectNewPlan | src/filesys/inode.c:122-142 | a new indirect table takes the first sector and its entries the following ones |
| Plans.PlanCompose | src/filesys/inode.c:101-185 | growing in two steps takes the sectors of growing once |
| Plans.PlanUnique | src/filesys/inode.c:101-185 | the plan leaves no choice |
| Plans.PlannedIs | src/filesys/inode.c:101-185 | the index of the grown file is the one computed from the free map beforehand |
| Plans.DoublePlaces | src/filesys/inode.c:156-179 | the places of data sectors and tables in the order of allocation, beyond the indirect table |
| Growth.DirectSpec | src/filesys/inode.c:113-120 | the direct blocks grow by fresh zeroed sectors, taken by first fit; everything else stays |
| Growth.IndirectNew | src/filesys/inode.c:122-142 | a new indirect table is allocated, filled and written |
| Growth.IndirectOld | src/filesys/inode.c:122-142 | an existing indirect table is read back, extended and written |
| Growth.OneTable | src/filesys/inode.c:156-179 | one turn of the double-indirect loop after full tables adds a second-level table of fresh zeroed sectors |
| Growth.GroupsCompose | src/filesys/inode.c:156-179 | turns of that loop compose |
| Grow.FillEntries | src/filesys/inode.c:114-120 | the loop over table entries computes the specified filling |
| Grow.ExtendEntries | src/filesys/inode.c:125-141 | opening, filling and writing back a table computes the specified extension |
| Grow.DoubleLoop | src/filesys/inode.c:156-179 | the loop is a run of turns that uses up the sectors to grow by or stops where the tables end |
| Grow.RunGrows | src/filesys/inode.c:156-179 | a run that starts after full tables only adds to the file, in the planned places |
| Grow.RunLoses | src/filesys/inode.c:156-179 | a run that starts inside a table loses as many first entries of that table as it adds sectors, up to 128 |
| Grow.GrowDouble | src/filesys/inode.c:144-182 | the double-indirect part extends the file as planned when it fits, to the end of the tables at most, and loses the first entries of a resumed table |
| Grow.GrowFirst | src/filesys/inode.c:113-142 | the direct and indirect parts extend the file as planned |
| Grow.InodeGrow | src/filesys/inode.c:101-185 | old data sectors keep their places and contents, the new ones were free and are zero, exactly the planned sectors are taken, nothing else is written, growth stops at the capacity; or, when a table is resumed, exactly the data sectors in its first entries are replaced |
| Grow.GrowsExactly | src/filesys/inode.c:101-185 | the file is extended if and only if the tables reach that far, the free sectors suffice and no partly filled second-level table is resumed |
| Grow.ResumedBytes | src/filesys/inode.c:160-175 | a byte of the old file is found where it was if and only if its sector is not among those written over; those are replaced by sectors that were free, zero if at most 128 are added, and all other contents stay then |
| Grow.RunsOut | src/filesys/inode.c:101-185 | growth that asks for at least as many sectors as are free takes all of them |
| Grow.KeepsUsed | src/filesys/inode.c:101-185 | growth gives no sector back |
| Grow.RequestsAre | src/filesys/inode.c:101-185 | how many sectors growth asks for: the difference of what the two sizes need, but none for tables when one is resumed |
| Grow.DirectShort | src/filesys/inode.c:113-120 | without enough free sectors the remaining direct entries keep their values, and the sectors those name are zeroed |
| Grow.NewFileZeroesSector0 | src/filesys/inode.c:113-120 | a new file of up to 13 sectors that does not get enough of them zeroes sector 0 |
| Grow.Sector0Exactly | src/filesys/inode.c:113-120 | and does so if and only if the free sectors do not suffice |
| Grow.ResumeFails | src/filesys/inode.c:160-175 | example: a new file grown to 142 and then to 143 sectors; byte 141 * 512 is found in another sector and no index extends the old one |
| Free.Release | src/filesys/free-map.c:45-51 | releasing needs the bit to be set and clears just that bit |
| Free.ReleaseEntries | src/filesys/inode.c:296-301 | the loop over entries releases exactly the listed sectors |
| Free.FreeDouble | src/filesys/inode.c:323-363 | full tables, the partial one and the first-level table are released, each once |
| Free.FreeInode | src/filesys/inode.c:284-364 | releases exactly the sectors of the file, data and tables, each once and each marked in use |
| Free.OwnedCount | src/filesys/inode.c:101-185 | a file of n sectors owns exactly n + [n>13] + [n>141](1 + ceil((n-141)/128)) distinct sectors |
| Free.FreedCount | src/filesys/inode.c:284-364 | freeing makes exactly that many sectors free again |
| Free.GrowThenFree | src/filesys/inode.c:284-364 | what growing takes, freeing gives back |
| FileSystem.BytesWrite | src/filesys/inode.c:497-546 | writing inside one data sector writes the same bytes of the file |
| FileSystem.BytesExtend | src/filesys/inode.c:101-185 | keeping the old sectors and adding zero ones appends zero bytes |
| FileSystem.CacheKeeps | src/filesys/inode.c:454 | going through the cache for a data sector leaves every table and every inode on the device alone |
| FileSystem.DeviceChange | src/filesys/inode.c:117-141 | writes to sectors that are not cached are seen as they are |
| FileSystem.GrowLayout | src/filesys/inode.c:101-185 | growing one file keeps the sectors of all files apart and marked in use |
| FileSystem.GrowMapped | src/filesys/inode.c:101-185 | growing one file leaves the tables of the others valid |
| FileSystem.TakenSectors | src/filesys/inode.c:101-185 | the sectors a growing file takes are exactly the next ones of first fit |
| Volumes.SoundGrow | src/filesys/inode.c:485-494 | growing appends zero bytes to the file, leaves all other files alone and keeps the whole state sound |
| Volumes.SoundWrite | src/filesys/inode.c:540 | a write through the cache changes the given bytes of one file only |
| Volumes.SoundRead | src/filesys/inode.c:454 | a read through the cache returns bytes of the file and changes no file |
| Volumes.SoundImage | src/filesys/inode.c:390 | writing the sector of an inode on the device changes no file |
| Volumes.CreatedSound | src/filesys/inode.c:219-226 | a new file that has room shows zero bytes, all others and their inodes stay, and the whole state is sound |
| Volumes.Volume.constructor | src/filesys/inode.c:191-195 | a fresh volume has no files and no stale blocks |
| Volumes.Volume.Load | src/filesys/inode.c:264 | the inode read from its sector is that of the file |
| Volumes.Volume.Store | src/filesys/inode.c:390 | the image of the inode is in its sector, no file changed |
| Volumes.Volume.ReadChunk | src/filesys/inode.c:419-460 | one turn reads a stretch of the file |
| Volumes.Volume.ReadAt | src/filesys/inode.c:409-464 | returns the bytes of the file from the offset on, cut at its length, and changes no file |
| Volumes.Volume.GrowTo | src/filesys/inode.c:101-185 | with room, and none of the sectors to be taken in the cache, the file is extended with zero bytes and others are unchanged; the outcome of inode_grow in any case |
| Volumes.Volume.WriteChunk | src/filesys/inode.c:497-546 | one turn writes a stretch of the file |
| Volumes.Volume.WriteAll | src/filesys/inode.c:497-546 | the loop writes all bytes within the length of the file |
| Volumes.Volume.WriteAt | src/filesys/inode.c:471-551 | the file becomes its zero-extension with the given bytes at the offset, every other file stays, all bytes count as written; while writes are denied nothing happens and 0 is returned |
| Volumes.Volume.Sync | src/filesys/buffer-cache.c:11-31 | afterwards the device alone holds every file, and the inode of every file that is not in memory; after the last one no stale block is left |
| Volumes.Volume.Create | src/filesys/inode.c:202-229 | success exactly if there is memory; with room, and none of its sectors in the cache, a new file of zero bytes with its inode on the device, all others unchanged; the outcome of inode_grow and the image in its sector in any case |
| Volumes.Volume.Remove | src/filesys/inode.c:383-388 | exactly the sectors of the file and its inode are released, other files stay, and cached blocks are stale afterwards exactly if a sector of the file was cached |
| Volumes.Volume.Abandon | src/filesys/filesys.c:147-148 | only the sector of the inode is given back |
| Volumes.Volume.Allocate | src/filesys/free-map.c:28-42 | the least free sector is taken, none exactly if all are in use; no file changes |
| Volumes.Volume.GiveBack | src/filesys/free-map.c:45-51 | a sector of no file becomes free; no file changes |
| Stale.RepLists | src/filesys/inode.c:58-96 | the tables of a file hold what its index lists |
| Stale.ListsRep | src/filesys/inode.c:58-96 | tables with the right entries describe the file whatever else is in them |
| Stale.DriftAlways | src/filesys/buffer-cache.c:11-103 | write-backs and evictions only move dirty blocks to their sectors and drop slots |
| Stale.DriftView | src/filesys/buffer-cache.c:11-103 | a sector whose clean copy agrees with the device shows the same block for ever |
| Stale.NamesRep | src/filesys/inode.c:264 | an inode with the right fields describes the file as well as the one in memory |
| Stale.StaleExactly | src/filesys/inode.c:101-227 | a file that grows or is created and all others show the right bytes, and the inodes on the device say the right thing, now and after any write-backs and evictions, if and only if every cached block over a sector to be taken is harmless |
| Stale.GrowExactly | src/filesys/inode.c:485-494 | this for inode_grow on an open file of a sound state with room |
| Stale.CreateExactly | src/filesys/inode.c:202-229 | this for inode_create in a sound state with room, the sector of the inode included |
| Stale.IntactReads | src/filesys/inode.c:409-464 | in such a state reading any byte of any file, by the inode in memory or the one on the device, gives the old byte or, where the file grew, zero |
| StaleRuns.StaleBytes | src/filesys/inode.c:117 | example: create, write, remove, close, create, and the new file has a byte that is not zero |
| StaleRuns.StaleInode | src/filesys/inode.c:223 | example: the same with two empty files created at the end; after a write-back the inode of the second one has a length |
| Files.FileTable.Find | src/filesys/inode.c:240-250 | finds the open inode of a sector |
| Files.FileTable.InodeOpen | src/filesys/inode.c:234-275 | opening yields the one in-memory inode of the sector, with one reference more |
| Files.FileTable.InodeClose | src/filesys/inode.c:369-395 | the last reference takes the inode off the list, and reports its sectors for release exactly if it was removed |
| Files.FileTable.FileOpen | src/filesys/file.c:17-34 | a new handle, or on failure the reference is given up again |
| Files.FileTable.Open | src/filesys/file.c:17-34 | a handle exactly if both allocations succeed that are needed; all counters stay exact |
| Files.FileTable.Reopen | src/filesys/file.c:38-42 | another handle on the same inode, exactly if there is memory |
| Files.FileTable.SetDeny | src/filesys/inode.c:555-570 | the deny count follows the denying handles |
| Files.FileTable.DenyWrite | src/filesys/file.c:118-127 | denies once per handle |
| Files.FileTable.AllowWrite | src/filesys/file.c:132-141 | takes back this handle's denial only |
| Files.FileTable.Remove | src/filesys/inode.c:399-404 | marks the open inode |
| Files.FileTable.Close | src/filesys/file.c:45-54 | reports the sectors for release exactly when this was the last handle of a removed inode, for each inode at most once ever |
| Files.FileTable.DenyCount | src/filesys/inode.c:479-480 | the number of handles that deny, positive exactly while some handle on the inode does |
| Files.DenyAtMostOpen | src/filesys/inode.c:555-570 | the deny count never exceeds the open count |
| Mounts.AccountedGrab | src/filesys/inode.c:101-185 | a growing file keeps every sector in use accounted for |
| Mounts.AccountedGone | src/filesys/inode.c:383-388 | so does a file that goes, its sectors being free or lost |
| Mounts.Conservation | src/filesys/inode.c:101-395 | free sectors, sectors of no file and the sectors of all files add up to the device |
| Mounts.Mount.constructor | src/filesys/filesys.c:98-114 | everything in use before is reserved |
| Mounts.Mount.SectorsAddUp | src/filesys/inode.c:101-395 | in every state of a mount free, reserved, lost and file sectors add up to the device |
| Mounts.Mount.Open | src/filesys/file.c:17-34 | a handle on the file, whose inode is in memory then, or nothing changed |
| Mounts.Mount.Read | src/filesys/file.c:82-86 | the bytes of the handle's file, no file changed |
| Mounts.Mount.Write | src/filesys/file.c:110-115 | returns 0 and changes nothing exactly while some handle on the file denies writes; otherwise the bytes are in the file and all other files unchanged |
| Mounts.Mount.SetDeny | src/filesys/file.c:118-141 | this handle denies or no longer does |
| Mounts.Mount.Remove | src/filesys/inode.c:399-404 | the open file is marked, nothing is released yet |
| Mounts.Mount.Close | src/filesys/file.c:45-54 | the sectors of the file are released in the free map exactly by the last close of a removed file; the last close of any other file writes its inode to its sector; no other close changes the free map, the device or a file |
| Mounts.Mount.Create | src/filesys/filesys.c:131-153 | success exactly if a sector, memory and a directory entry are to be had; with room, and none of its sectors in the cache, the new file has zero bytes and no other changes; without the entry exactly the sectors of its data and tables are lost, otherwise none |
| Scheduler.BlockKeeps | src/threads/thread.c:246-257 | thread_block keeps the scheduler invariant |
| Scheduler.YieldKeeps | src/threads/thread.c:334-348 | thread_yield keeps it |
| Scheduler.ExitKeeps | src/threads/thread.c:313-330 | thread_exit keeps it; a dead thread's page is freed once and never while it runs |
| Scheduler.UnblockKeeps | src/threads/thread.c:264-276 | thread_unblock keeps it |
| Scheduler.CreateKeeps | src/threads/thread.c:178-238 | thread_create keeps it |
| Scheduler.RunKeeps | src/threads/thread.c:523-599 | in every run exactly one thread runs, a thread is ready iff it is on the ready list, exactly once |
| Scheduler.ReadyThreadRuns | src/threads/thread.c:523-599 | round robin: the thread at position k of the ready list runs after the (k+1)-th dispatch, whatever else happens |
| SynchTheorems.InvNext | src/threads/synch.c:60-338 | every atomic step of every operation keeps the invariant |
| SynchTheorems.RunInv | src/threads/synch.c:60-338 | so does every run |
| SynchTheorems.SemaphoreAccounting | src/threads/synch.c:60-121 | a semaphore's value is its initial value plus ups minus completed downs, as its history records them; SynchLaws.ClientUnits counts them in the run |
| SynchTheorems.NoLostWakeup | src/threads/synch.c:60-121 | while threads wait there are at least as many woken threads, all running or ready, as units available |
| SynchTheorems.OneListAtATime | src/threads/synch.c:60-81 | a waiting thread is blocked, in one wait list once, and not on the ready list |
| SynchTheorems.BlockedIsWaiting | src/threads/thread.c:245-257 | a blocked thread other than idle is in a wait list |
| SynchTheorems.OperationsProceed | src/threads/synch.c:192-338 | no assertion inside an operation fails: cond_wait holds the lock it releases and does not hold the lock it acquires again, cond_broadcast holds the lock at every signal, and sema_up wakes only blocked threads |
| SynchTheorems.UpsProceed | src/threads/thread.c:264-276 | the assertion of thread_unblock holds in every sema_up of every run |
| SynchTheorems.SchedulerRefined | src/threads/thread.c:523-599 | every step moves the scheduler by at most one legal scheduler step |
| SynchTheorems.MutualExclusion | src/threads/synch.c:192-236 | at most one thread is between taking and giving back a lock |
| SynchTheorems.FreeWhenUnused | src/threads/synch.c:192-236 | a lock nobody is inside is free |
| SynchTheorems.SignalsMatchWaits | src/threads/synch.c:287-327 | signals reach waits in order; every returned wait had its own distinct signal |
| SynchTheorems.WaitReturns | src/threads/synch.c:287-303 | cond_wait returns holding the lock, alone, after its own signal |
| SynchTheorems.SignalIsKept | src/threads/synch.c:287-327 | a signal sent between release of the lock and sleeping is not lost |
| SynchTheorems.BroadcastReleasesAll | src/threads/synch.c:330-338 | a broadcast ends having signalled exactly the waiters queued when it began |
| SynchTheorems.BroadcastStarts | src/threads/synch.c:330-338 | those waiters are fixed when it begins |
| SynchLaws.UpLaw | src/threads/synch.c:109-121 | sema_up by a thread or in an interrupt: one unit more; the first waiter, if any, was blocked and is off every wait list, ready, and last on the ready list; every other semaphore, thread, lock and condition variable is as before |
| SynchLaws.DownLaw | src/threads/synch.c:60-76 | sema_down takes a unit, or at value 0 puts the thread last on the wait list, blocked, and the first ready thread runs; nothing else changes |
| SynchLaws.TryDownLaw | src/threads/synch.c:84-103 | sema_try_down takes a unit exactly if there is one, and otherwise changes nothing |
| SynchLaws.RetestLaw | src/threads/synch.c:69-74 | a thread woken in sema_down tests again in the same way, in each of the four places it is called from |
| SynchLaws.AcquireLaw | src/threads/synch.c:192-201 | lock_acquire does so on the semaphore of the lock |
| SynchLaws.TryAcquireLaw | src/threads/synch.c:209-221 | lock_try_acquire succeeds exactly if nobody is inside the lock, and otherwise changes nothing |
| SynchLaws.HolderLaw | src/threads/synch.c:200 | then the thread is the holder, and alone inside |
| SynchLaws.ReleaseLaw | src/threads/synch.c:229-234 | lock_release clears the holder and changes nothing else |
| SynchLaws.ReleasedLaw | src/threads/synch.c:235 | then the semaphore of the lock is upped: its value is 1, and the first thread waiting for it is ready |
| SynchLaws.WaitLaw | src/threads/synch.c:287-299 | cond_wait puts the thread last in the queue, with a new ticket and its semaphore at 0 |
| SynchLaws.WaitReleasesLaw | src/threads/synch.c:299 | and releases the lock |
| SynchLaws.WaitEndsLaw | src/threads/synch.c:301 | and in the end holds the lock again |
| SynchLaws.SignalLaw | src/threads/synch.c:312-321 | cond_signal on an empty queue changes nothing; otherwise the first waiter, and no other, leaves the queue and is the next to be signalled |
| SynchLaws.SignalUpLaw | src/threads/synch.c:319-321 | the signaller's next own step makes the value of that waiter's semaphore 1, with the waiter not blocked |
| SynchLaws.BroadcastLaw | src/threads/synch.c:331-338 | cond_broadcast begins without changing anything |
| SynchLaws.BroadcastTurnLaw | src/threads/synch.c:336-337 | it ends exactly if the queue is empty, and otherwise does what cond_signal does |
| SynchLaws.PreemptLaw | src/threads/thread.c:334-348 | the running thread goes to the end of the ready list, and the first one on it runs |
| SynchLaws.IdleBlockLaw | src/threads/thread.c:246-257 | the idle thread blocks, and the first ready thread runs |
| SynchLaws.SpawnLaw | src/threads/thread.c:178-238 | a new thread is ready, last on the list |
| SynchLaws.DieLaw | src/threads/thread.c:313-330 | a thread that exits is gone and its page freed, unless it is the initial one; the first ready thread runs |
| SynchLaws.OnlyRunningMoves | src/threads/synch.c:60-338 | no step moves a thread that is not running |
| SynchLaws.CallsPossible | src/threads/synch.c:60-338 | a thread in client code can make exactly the calls whose assertions hold |
| SynchLaws.InterruptsPossible | src/threads/synch.c:60-76 | interrupts come at any time except between the dispatch of a thread woken in sema_down and its next test |
| SynchLaws.Boot | src/threads/synch.c:44-54 | a start with any values of client semaphores, any locks and any condition variables of those |
| SynchLaws.UnitsAddUp | src/threads/synch.c:60-121 | over every run the value of a semaphore is what it was plus the ups minus the completed downs among the steps |
| SynchLaws.ClientUnits | src/threads/synch.c:60-121 | from a start on: the initial value, plus the calls of sema_up, minus the completed downs |
| SynchLaws.DownsFromStart | src/threads/synch.c:60-76 | every call of sema_down among the steps has completed once or is still under way |
| SynchLaws.SignalsAddUp | src/threads/synch.c:287-338 | over every run as many tickets are signalled as there were signals and turns of broadcasts that found a waiter; the queue has the waits begun and not signalled; as many waits have returned as there were returns |
| StableSort.InsertionSortIsStable | src/lib/kernel/list.c:405-440 | inserting one by one yields a sorted stable rearrangement |
| StableSort.UniqueStableSort | src/lib/kernel/list.c:405-440 | there is only one such rearrangement |
| StableSort.SortedStableIsInsertionSort | src/lib/kernel/list.c:405-440 | so every sorted stable rearrangement is that one |
| StableSort.MergeMove | src/lib/kernel/list.c:380-398 | moving the smaller element forward keeps the merge state stable |
| List.InsertChain | src/lib/kernel/list.c:169-178 | a well-formed doubly linked list with the element inserted |
| List.RemoveChain | src/lib/kernel/list.c:249-255 | a well-formed list without the element, and its successor |
| List.Splice | src/lib/kernel/list.c:184-204 | a stretch moves to another place of the list, links intact |
| List.SpliceInto | src/lib/kernel/list.c:184-204 | a stretch moves from one list into another, links of both intact |
| List.FindEndOfRun | src/lib/kernel/list.c:358-370 | the exclusive end of the maximal run |
| List.InplaceMerge | src/lib/kernel/list.c:380-398 | two adjacent runs become one sorted stretch, stably, the rest untouched |
| List.MergePass | src/lib/kernel/list.c:405-440 | one pass merges runs in pairs: k runs become ceil(k/2) |
| List.List.constructor | src/lib/kernel/list.c:61-68 | an empty list |
| List.List.PushFront | src/lib/kernel/list.c:209-213 | the element becomes the first |
| List.List.PushBack | src/lib/kernel/list.c:217-221 | the element becomes the last |
| List.List.PopFront | src/lib/kernel/list.c:260-265 | takes the first element off |
| List.List.InsertInOrder | src/lib/kernel/list.c:446-459 | inserted before the first strictly greater element |
| List.List.Sort | src/lib/kernel/list.c:405-440 | the same nodes in the order of the stable sort, linked correctly, after at most 1 + log2(runs) passes |
| Bitmaps.OneBit | src/lib/kernel/bitmap.c:35-47 | changing a bit of a word changes that bit of the map and no other |
| Bitmaps.Bitmap.constructor | src/lib/kernel/bitmap.c:78-95 | all bits clear |
| Bitmaps.Bitmap.Mark | src/lib/kernel/bitmap.c:157-167 | sets one bit of the sequence |
| Bitmaps.Bitmap.Reset | src/lib/kernel/bitmap.c:170-180 | clears one bit |
| Bitmaps.Bitmap.Flip | src/lib/kernel/bitmap.c:185-195 | toggles one bit |
| Bitmaps.Bitmap.Test | src/lib/kernel/bitmap.c:198-204 | reads one bit |
| Bitmaps.Bitmap.SetMultiple | src/lib/kernel/bitmap.c:218-229 | sets a range and nothing else |
| Bitmaps.Bitmap.Count | src/lib/kernel/bitmap.c:233-247 | the number of bits with the value in a range |
| Bitmaps.Bitmap.Contains | src/lib/kernel/bitmap.c:251-264 | whether some bit in a range has the value |
| Bitmaps.Bitmap.Scan | src/lib/kernel/bitmap.c:296-311 | the least start of a run of equal bits, failing exactly if there is none |
| Bitmaps.Bitmap.ScanAndFlip | src/lib/kernel/bitmap.c:320-327 | finds that run and flips exactly its bits |
| Pages.Allocator.constructor | src/threads/palloc.c:45-62 | the two pools with their sizes and places, each behind its own bitmap, no extent in use |
| Pages.Allocator.GetMultiple | src/threads/palloc.c:70-101 | the first run of free pages inside the pool asked for, apart from all other extents; fails exactly if no run is free |
| Pages.Allocator.FreeMultiple | src/threads/palloc.c:117-142 | the extent returns to the pool it came from, the other pool's bitmap is untouched |
| Malloc.MallocInit | src/threads/malloc.c:71-85 | the seven descriptors: block sizes 16 to 1024, each with as many blocks as fit behind the header |
| Malloc.Placed | src/threads/malloc.c:267-294 | rounding a block's address down to a page finds its arena, and the alignment checks hold |
| Malloc.LiveInside | src/threads/malloc.c:89-154 | a block in use lies behind its arena's header and has room for the request |
| Malloc.AcceptedExactly | src/threads/malloc.c:267-282 | a pointer into a block in use passes the checks of block_to_arena if and only if it is the start of the block |
| Malloc.LiveApart | src/threads/malloc.c:89-154 | blocks in use do not overlap |
| Malloc.ArenaInUse | src/threads/malloc.c:241-253 | every arena has a block in use |
| Malloc.NothingLive | src/threads/malloc.c:241-253 | with nothing in use there are no arenas |
| Malloc.Popped | src/threads/malloc.c:148-153 | handing out the head of a free list keeps counts, lists and blocks in use consistent |
| Malloc.NewArena | src/threads/malloc.c:124-146 | so does a new arena with all blocks on its free list |
| Malloc.NewBig | src/threads/malloc.c:105-120 | so does a big block |
| Malloc.Pushed | src/threads/malloc.c:238-242 | so does giving a block back |
| Malloc.Dropped | src/threads/malloc.c:241-253 | so does giving back an arena without blocks in use |
| Malloc.BigGone | src/threads/malloc.c:257-262 | so does freeing a big block |
| Heaps.RemoveBlocks | src/threads/malloc.c:246-251 | exactly the blocks of the arena leave the free list |
| Heaps.Heap.FindDesc | src/threads/malloc.c:100-105 | the smallest descriptor large enough, none exactly for more than 1 KB |
| Heaps.PagesSuffice | src/threads/malloc.c:109 | the page count computed in 32 bits is 0, and malloc fails, or enough, if and only if the size is none of the eleven greatest |
| Heaps.Heap.MallocBig | src/threads/malloc.c:105-120 | a big block with the bytes granted, or none if the page count is 0 or there is no such run of free pages |
| Heaps.Heap.Malloc | src/threads/malloc.c:89-154 | for every size: one new block in use with room for the request, or for one page if that is one of the eleven greatest; no other page owner affected; fails only for size 0, a page count of 0 or when no run of the needed pages is free |
| Heaps.ProductSuffices | src/threads/malloc.c:165-167 | calloc fails or asks for enough if and only if the product does not wrap around or its test sees that it did |
| Heaps.TestExactly | src/threads/malloc.c:165-167 | where the product does not wrap around the test fires if and only if exactly one factor is 0 |
| Heaps.SmallFactors | src/threads/malloc.c:165-167 | which it does when neither factor is above 65536 |
| Heaps.ProductWrapsAround | src/threads/malloc.c:165-167 | example of a product it does not see |
| Heaps.Heap.Calloc | src/threads/malloc.c:158-175 | a new block of the computed size, zero throughout; every other block keeps its bytes; where the product does not wrap around it fails only if a factor is 0 or malloc of the product fails |
| Heaps.CopyFits | src/threads/malloc.c:207-209 | the copy of realloc stays inside the new block if and only if the new size is none of the eleven greatest or the old block is at most what one page holds |
| Heaps.Heap.Free | src/threads/malloc.c:218-264 | exactly this block is no longer in use; the bytes of every other block stay |
| Heaps.Heap.Realloc | src/threads/malloc.c:194-214 | the new block starts with the old bytes up to the smaller size; on failure nothing changes; other blocks keep their bytes |
| Heaps.Heap.AllReturned | src/threads/malloc.c:241-262 | after everything is freed the page allocator has every page back |
| HashTables.AndMask | src/lib/kernel/hash.c:305-310 | masking with 2^k - 1 is the remainder modulo 2^k |
| HashTables.TurnOff | src/lib/kernel/hash.c:328-340 | turning off the lowest one bit keeps the highest and yields 0 exactly at powers of two |
| HashTables.BestBuckets | src/lib/kernel/hash.c:364-372 | the largest power of two up to half the elements, but at least 4 |
| HashTables.BucketIsRemainder | src/lib/kernel/hash.c:305-310 | the bucket is the hash modulo the bucket count |
| HashTables.HashTable.constructor | src/lib/kernel/hash.c:24-42 | an empty table of four buckets |
| HashTables.HashTable.FindElem | src/lib/kernel/hash.c:314-326 | an equal element of the bucket, or none exactly if there is none |
| HashTables.HashTable.Find | src/lib/kernel/hash.c:131-135 | the element of the table equal to the key, or none exactly if there is none |
| HashTables.HashTable.Rehash | src/lib/kernel/hash.c:351-413 | every element ends in the bucket of its masked hash, none is lost, whether or not memory is available |
| HashTables.HashTable.Insert | src/lib/kernel/hash.c:98-110 | adds the element unless an equal one is there, which is returned; with memory the number of buckets fits the number of elements |
| HashTables.HashTable.Replace | src/lib/kernel/hash.c:114-127 | the element takes the place of the equal one; with memory the number of buckets fits the number of elements |
| HashTables.HashTable.Delete | src/lib/kernel/hash.c:144-154 | takes out the equal element, if any; with memory the number of buckets then fits the number of elements |
| HashTables.Next | src/lib/kernel/hash.c:218-235 | an element not visited before, none exactly when all were |
| HashTables.VisitAll | src/lib/kernel/hash.c:182-193 | iteration visits every element exactly once |
| HeapSort.Heapify | src/lib/stdlib.c:93-123 | the heap property from the element on, over the same elements |
| HeapSort.RootGreatest | src/lib/stdlib.c:125-152 | the root of a heap is a greatest element |
| HeapSort.Sort | src/lib/stdlib.c:131-152 | a sorted permutation for every total preorder |
| HeapSort.BinarySearch | src/lib/stdlib.c:184-207 | a match, or none exactly if there is none |
| Arithmetic.Nlz | src/lib/arithmetic.c:41-73 | the shift that brings the leading one to bit 31 |
| Arithmetic.SmallDivisor | src/lib/arithmetic.c:80-112 | division by 32 bits digit by digit, without trapping |
| Arithmetic.EstimateOffByOne | src/lib/arithmetic.c:115-125 | the estimated quotient is exact or one too large |
| Arithmetic.LargeDivisor | src/lib/arithmetic.c:121-124 | the divide instruction does not trap and gives such an estimate |
| Arithmetic.Udiv64 | src/lib/arithmetic.c:77-127 | the exact quotient for all 64-bit operands |
| Arithmetic.Umod64 | src/lib/arithmetic.c:131-135 | the remainder modulo 2^32, the remainder itself exactly if that fits in 32 bits |
| Arithmetic.RemainderLost | src/lib/arithmetic.c:131-135 | example of a remainder that does not fit |
| Arithmetic.UmodDivisors | src/lib/arithmetic.c:131-135 | right for every dividend if and only if the divisor is at most 2^32 |
| Arithmetic.Sdiv64 | src/lib/arithmetic.c:139-146 | truncates toward zero, except exactly for the least integer divided by -1 |
| Arithmetic.Smod64 | src/lib/arithmetic.c:150-154 | the C remainder exactly if it fits in 32 bits |
| Arithmetic.SmodDivisors | src/lib/arithmetic.c:150-154 | right for every dividend if and only if the divisor is at most 2^31 in magnitude |
| Arithmetic.SignedRemainderLost | src/lib/arithmetic.c:150-154 | example of a remainder that does not fit |
| Stdio.StoreDigits | src/lib/stdio.c:529-541 | the numeral of the value: it decodes to it, commas stand exactly between groups, and there is no leading zero |
| Stdio.RenderDigits | src/lib/stdio.c:529-552 | never more than 63 of the 64 characters of the buffer: the numeral after exactly the zeros that precision and the alternate octal form ask for |
| Stdio.FormatInteger | src/lib/stdio.c:496-575 | spaces, sign, mark, zeros, number and spaces, each exactly where and as long as the flags and the width ask for |
| Stdio.FormatLength | src/lib/stdio.c:554-574 | the output is as long as the width or as it has to be if and only if not both the minus and the zero flag ask for padding |
| Stdio.PaddedTwice | src/lib/stdio.c:400-421 | example of a number printed too wide |
| Stdio.BodyLength | src/lib/stdio.c:529-552 | the number has its digits and commas, or as many characters as the precision asks for, at most 63, and the zero of the alternate octal form |
| Stdio.CommaPlaces | src/lib/stdio.c:536-537 | commas stand exactly between groups of 3 digits, of 4 in hexadecimal |
| Stdio.Letters | src/lib/stdio.c:138-141 | letters only in hexadecimal, upper case exactly for the upper-case base |
| Stdio.OutputDup | src/lib/stdio.c:578-583 | a character repeated |
| Stdio.Vsnprintf | src/lib/stdio.c:25-52 | the longest fitting prefix, terminated, nothing beyond touched, the full length returned |
| Stdio.Atoi | src/lib/stdlib.c:9-41 | the number the string denotes, without intermediate overflow |
| Stdio.MeaningIs | src/lib/stdlib.c:9-41 | white space, an optional sign and digits denote the value of the digits, negative exactly after a minus sign |
| Stdio.DecimalMeaning | src/lib/stdio.c:496-575 | a decimal number printed without grouping denotes the value it was printed from, for all flags, widths and precisions |
| Stdio.PrintThenRead | src/lib/stdio.c:496-575 | printing any int with any such conversion and reading it with atoi returns it |
| Ustar.Strip | src/lib/ustar.c:65-73 | the name without some of "/", "./" and "../" at its beginning, so that what is left begins with none of them; "." in place of nothing and ".." |
| Ustar.StrippedIs | src/lib/ustar.c:65-73 | there is exactly one such result |
| Ustar.StripIdempotent | src/lib/ustar.c:65-73 | a stripped name is relative, not empty, not "..", has none of the stripped prefixes, and stripping it again changes nothing |
| Ustar.InnerDotsSurvive | src/lib/ustar.c:65-73 | example of a name with ".." inside that stripping leaves alone |
| Ustar.CalculateChksum | src/lib/ustar.c:36-54 | the sum with the checksum field as spaces |
| Ustar.SumFrame | src/lib/ustar.c:36-54 | the checksum does not depend on the checksum field |
| Ustar.ZeroSum | src/lib/ustar.c:36-54 | the sum of a header of zeros |
| Ustar.SumChanged | src/lib/ustar.c:36-54 | changing a character outside the checksum field changes the sum by the difference |
| Ustar.ParseOctalField | src/lib/ustar.c:129-162 | the octal value, with overflow, empty, bad and unterminated fields refused |
| Ustar.OctalReads | src/lib/ustar.c:129-162 | a field is read as the value of its leading octal digits if and only if there is one, a space or a null character follows them and the value fits in 32 bits |
| Ustar.FormatOctal | src/lib/ustar.c:102-107 | zero-padded octal of the exact width |
| Ustar.UnpackBytes | src/lib/ustar.c:10-33 | the fields of a header survive the trip through its 512 bytes |
| Ustar.ParseHeader | src/lib/ustar.c:181-227 | computes the specified result, every error case included |
| Ustar.Accepted | src/lib/ustar.c:181-227 | a header is accepted if and only if magic, version, checksum, name, type and size are in order; the name is then the stripped one, relative and of 1 to 99 characters, the size that of the field and fits in an int |
| Ustar.EndOfArchiveExactly | src/lib/ustar.c:190-197 | the end of the archive is found if and only if the header is all zeros |
| Ustar.RefusedWhy | src/lib/ustar.c:199-217 | what is wrong with a header for each of the error messages |
| Ustar.OneCharacterChanged | src/lib/ustar.c:181-227 | an accepted header with any one character outside the checksum field changed is refused |
| Ustar.MakeHeader | src/lib/ustar.c:82-118 | refuses exactly names of which more than 99 characters are left after stripping; otherwise every field of the header says what it should, and parsing it gives the stripped name, the type and the size, 0 for directories |
| Arguments.StrTok | src/lib/string.c:234-275 | the next maximal run of non-spaces, terminated in place, and where to go on |
| Arguments.TokensAre | src/lib/string.c:206-233 | the tokens of a line are pieces of it in order, without spaces, each between spaces or ends, and every character that is no space is in one of them |
| Arguments.PushString | src/userprog/process.c:390-393 | the argument goes right below the previous one |
| Arguments.PushPointers | src/userprog/process.c:397-409 | a null pointer and pointers to the arguments in order |
| Arguments.FinalStack | src/userprog/process.c:411-422 | with argv, argc and the return address the stack decodes to the arguments |
| Arguments.SetUpStack | src/userprog/process.c:381-422 | decoding the stack from the final pointer gives argc, the tokens of the command line as argv, and a null argv[argc]; the pointer freed in the end is to the first of them |
| Arguments.LoadFreesName | src/userprog/process.c:294-424 | that pointer passes the checks of free if and only if the line does not start with a space |

## Left out

- Volumes.Volume.WriteAt: growing beyond the capacity of the index, without enough free sectors, inside a partly filled table, or onto sectors in the cache is a precondition; what growth does then is in Grow.InodeGrow and Stale.StaleExactly, but not what the bytes written after it do.
- Grow.InodeGrow: the inode and the device are passed as values instead of being updated in place.
- Grow.ResumedBytes: when more than 128 sectors are added to a resumed table, the source goes on in tables it never allocated; only the loss in the first table is stated then.
- Cache.BufferCache.Evict: the counter is unbounded here; Cache.HandInRange says for how long that is right.
- Stale.StaleExactly: free_map_allocate writes the free map through the cache (src/filesys/free-map.c:33), so the source may evict slots in the middle of a growth. Here the cache rests until the growth is over. For such runs the only-if half does not hold: a stale slot evicted in between is gone before the growth ends, and if it was dirty the growth may write its sector afterwards.
- Heaps.Heap.Malloc: the bytes of arena headers and list links are not represented, and the free lists are sequences.
- Heaps.Heap.Realloc: a new size that is one of the eleven greatest together with an old block of more than a page is a precondition, as the copy would leave the new block.
- Heaps.Heap.Calloc: a size that is one of the eleven greatest and passes the test is a precondition, as the zeros would leave the block.
- Pages.Allocator.FreeMultiple: only whole extents are given back, as every caller does.
- Files.FileTable.Remove: the inode has to be open, as the pointer passed in the source is to an open one; file positions are left out.
- Mounts.Mount.Create: whether the directory takes the entry is a parameter; without room, or onto sectors in the cache, only the outcome of inode_create is stated.
- Bitmaps.Bitmap.constructor: failure to get memory is left out, as in HashTables.HashTable.constructor.
- HashTables.HashTable.constructor: failure to get memory is left out, and a bucket is a sequence, not a linked list; List has the linked ones.
- Pages.Allocator.GetMultiple: zero filling and the panic flag are left out.
- Stdio.Vsnprintf: takes the finished text; format strings and argument lists (__vprintf, parse_conversion, format_string) are left out.
- Stdio.Atoi: numbers outside the range of int, undefined in C, are a precondition.
- HeapSort.Sort: works on elements instead of runs of bytes.
- Arguments.SetUpStack: a command line without tokens, or whose image does not fit in the stack page, is a precondition; the source checks neither.
- Scheduler.ExitKeeps: thread pages, stacks and the switch itself are left out, as are priorities, which the source stores but ignores.
- Sleeping in the timer, interrupts as hardware, and the lock inside each inode, pool and descriptor: file system and allocators are modelled one call at a time.
- Writing the free map back to its file, directories, path names, list_reverse, list_unique, list_max and list_min, hash_apply and hash_clear, the hash functions, bitmap files: they would only add easy members.
- Device drivers, boot code, partitions, page tables, user processes and system calls.

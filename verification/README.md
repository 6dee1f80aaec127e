# Verified model of a teaching RISC-V kernel

This project models five stateful parts of the kernel in Dafny and proves what they keep over every run and on
every input. `dafny verify dfyconfig.toml` checks all of it.

| part | files |
|---|---|
| The KTFS file system (`sys/ktfs.c`): bitmaps, the three-tier block map, byte-wise fetch and store, the directory | `KtfsLayout`, `KtfsBitmap`, `KtfsOwners`, `KtfsVolume`, `KtfsContent`, `KtfsFiles`, `KtfsChanges`, `KtfsDirSpec`, `KtfsDirectory` |
| Physical pages and Sv39 address spaces (`sys/memory.c`) | `FreePages`, `PageTrees`, `PageWalks`, `PageTables`, `PageMaps` |
| The write-back block cache with pins (`sys/cache.c`) | `CacheSpec`, `CacheProofs`, `Cache` |
| Threads, conditions and locks (`sys/thread.c`), the block driver (`sys/dev/vioblk.c`), pipes (`sys/uio.c`) | `Scheduler`, `SchedulerProofs`, `SchedulerRuns`, `ThreadLists`, `VioBlk`, `Pipes` |
| The CRLF terminal (`usr/uio.c`), byte-wise storage I/O (`sys/device.c`), argv marshalling (`sys/process.c`) | `UioTerm`, `StorageUio`, `InitialStack` |

`Basics` and `LittleEndian` hold small shared facts.

How the parts are modelled:

- **KTFS.** A volume is a class whose fields are the data blocks, the inodes and the two bitmaps as bytes. The places
  that hold block numbers form a tree of *slots* (a field of the inode, or a word of the block that another slot points
  to); the *rank* of a slot is the first file block that needs it. A ghost map from blocks to slots is the ownership:
  it makes sharing impossible, and the data bitmap must be exactly its domain and a constant reserved set. File and
  directory contents are functions of the blocks. Blocks are read and written as on the plain disk, which the cache
  refines.
- **Pages.** Memory is a sequence of pages, each a free-list header or 512 page-table words. The free list is stored in
  the free pages. Address spaces are trees of such pages (Sv39, section 4.4 of the RISC-V Privileged Architecture,
  version 20211203); `Foot` is the set of pages of a tree, `ViewOf` what it maps, and `WalkTo` the leaf entry that a
  virtual page number reaches. `Skeleton` is a tree without its leaves, for what happens to the tables when leaf entries
  say anything at all.
- **Cache.** The doubly linked list of nodes is a class proved against a specification on a sequence of lines; the
  results of the device are parameters.
- **Threads, driver, pipes.** State machines. Kernel code switches threads only at suspension points; an interrupt
  service routine may broadcast between any two steps; brackets of `disable_interrupts` and `restore_interrupts` are
  atomic, as the code intends. The device takes and finishes requests whenever it likes. The linked lists are classes
  proved against sequences. A pipe's state holds the ring buffer with its positions, for each width that
  `uint_fast16_t` may have; the buffer and the pipe in memory are classes whose turns are steps of that machine.
- **Filters.** Methods with the loops of the source, proved against per-character or per-byte specifications.

Preconditions that the code does not check are listed under "Left out". Where the code does not meet a property on all
inputs, the exact condition is proved, with an input that fails:

- a negative device result passes the test `result < 512UL`: `CacheProofs.GetKeepsViewExactlyUnlessLost`,
  `CacheProofs.FlushSettles`;
- a 64-bit sum that wraps around escapes the cut at the end of the device: `VioBlkProofs.BytesAreRight`;
- positions stepped through a `uint_fast16_t` of less than 64 bits hide a full pipe: `Pipes.IntactExactlyIfLossless`;
- `set_range_flags` maps pages that were not mapped: `PageMaps.SetRangeFlags`.

## Model

| member | source | states |
|---|---|---|
| KtfsLayout.PutPtrPtr | sys/ktfs.c:331-340 | storing a little-endian block number in an index block reads back at its place and changes no other of the 128 |
| KtfsLayout.DataSlotRank | sys/ktfs.c:307-366 | the slot the three tiers compute for file block n is the one whose first needed block is n |
| KtfsLayout.DataSlotOfRank | sys/ktfs.c:307-366 | every place for file data in the tree belongs to exactly one file block below 32900: the tiers neither overlap nor leave gaps |
| KtfsOwners.SlotsForAll | sys/ktfs.c:316-350 | a slot is first needed by file block n exactly if it is the data slot of n or one of the index slots for which the code's tests (block 4, multiples of 128 and of 16384 after 132) hold |
| KtfsLayout.CountClosedForm | sys/ktfs.c:307-366 | a file of n blocks takes n + [n>4] + ceil((n-132)/128) + ceil((n-132)/16384) blocks |
| KtfsBitmap.FirstFit | sys/ktfs.c:404-448 | the loops over blocks, bytes and bits find the lowest clear bit and set only it, or find all bits set |
| KtfsBitmap.ClearAt | sys/ktfs.c:450-462 | freeing by block, byte and bit clears exactly the bit of that number |
| KtfsBitmap.SetBitUsed | sys/ktfs.c:404-462 | setting or clearing a bit adds or removes exactly that number from the numbers in use |
| KtfsBitmap.UsedDetermines | sys/ktfs.c:404-462 | bitmaps with the same numbers in use are the same bytes |
| KtfsOwners.BlocksAreUnshared | sys/ktfs.c:287-402 | on a sound volume two different file blocks, of one inode or of two, are never the same data block |
| KtfsOwners.FieldKeeps | sys/ktfs.c:309-321 | filling an unused field of an inode changes no block number that any file uses |
| KtfsOwners.PtrKeeps | sys/ktfs.c:322-360 | filling an unused word of an index block changes no block number that any file uses |
| KtfsOwners.DataKeeps | sys/ktfs.c:723-743 | writing file data changes no block number that any file uses |
| KtfsOwners.BlocksOfCount | sys/ktfs.c:287-366 | an inode of n blocks owns exactly as many data and index blocks as the count formula says |
| KtfsOwners.TrimExtends | sys/ktfs.c:307-402 | taking back what a growth added restores the ownership |
| KtfsGrowth.GrowStep | sys/ktfs.c:307-366 | one freshly allocated block put into its slot keeps every owned block where it is and changes only this inode's pointers |
| KtfsVolume.Volume.AllocateDataBlock | sys/ktfs.c:404-425 | if a block of the volume is free, returns the lowest clear number and sets its bit; if none is, a number past the end or -EINVAL as an unsigned number, which no caller's test can tell from a block |
| KtfsVolume.Volume.AllocateInode | sys/ktfs.c:427-448 | the same for inodes |
| KtfsVolume.Volume.FreeDataBlock | sys/ktfs.c:450-455 | clears exactly the bit of the block |
| KtfsVolume.Volume.AllocateBlockFromInode | sys/ktfs.c:307-366 | the file gains its n-th block with exactly the index blocks that need starting; existing blocks stay; the free count drops by exactly that many; -EINVAL from block 32900 on |
| KtfsVolume.Volume.FreeBlockFromInode | sys/ktfs.c:370-402 | gives up exactly the blocks first needed by the last file block; bitmap and ownership stay in balance |
| KtfsFiles.ChangeFileSize | sys/ktfs.c:287-305 | the file has exactly the blocks of its new size (at most 32900 blocks), all bytes of all files are kept, and the free count drops by the difference of the count formula |
| KtfsFiles.FindBlock | sys/ktfs.c:590-614 | the tier walk of fetch and store finds the block in the data slot of file block n, on the volume |
| KtfsFiles.Chunk | sys/ktfs.c:618-640 | the four cases (one block, start, end, middle) move the part of the current block that the transfer covers, and end at a block boundary or at the end |
| KtfsFiles.BlockSlice | sys/ktfs.c:590-640 | a slice of the block found is that slice of the file |
| KtfsFiles.CopiedExactly | sys/ktfs.c:557-643 | what Fetch promises, as slices: the buffer's first bytes are the file's, the others are untouched |
| KtfsFiles.FileSystem.IsOpen | sys/ktfs.c:569-578 | the walk over the open files finds the file exactly if it is open |
| KtfsFiles.FileSystem.Fetch | sys/ktfs.c:557-643 | returns min(len, size - pos) bytes, exactly those of the file from pos on, leaves the rest of the buffer, and advances pos; 0 for length 0, -EINVAL if not open |
| KtfsFiles.FileSystem.Read | sys/ktfs.c:588-642 | the copy loop over blocks of all three tiers copies exactly the requested bytes |
| KtfsFiles.FileSystem.Store | sys/ktfs.c:651-747 | replaces exactly the bytes from pos on, sets the size to max(size, pos + len), keeps every other byte of this file and every other file, keeps the volume sound, and advances pos |
| KtfsFiles.FileSystem.Write | sys/ktfs.c:690-746 | the copy loop writes exactly the given bytes at pos and changes no other byte of any file |
| KtfsFiles.SplicedExactly | sys/ktfs.c:651-747 | a store at pos <= size makes the file c[..pos] + buf + c[pos+len..] |
| KtfsContent.GrownContent | sys/ktfs.c:287-305 | growing a file keeps its old bytes as a prefix and every other file as it is |
| KtfsContent.WrittenByte | sys/ktfs.c:723-743 | writing into the block of one file block changes those bytes of that file and no byte of any other place |
| KtfsContent.StoredMore | sys/ktfs.c:690-743 | one more turn of the store loop extends the stored part and nothing else |
| KtfsDirSpec.EntryRoundTrip | sys/ktfs.c:798-801 | an entry written as number, name and NUL reads back as that number and name |
| KtfsDirSpec.Find | sys/ktfs.c:235-285 | the lookup's result is the first entry with the name, or none has it |
| KtfsDirSpec.AppendNames | sys/ktfs.c:755-805 | appending an entry adds exactly one binding to the map from names to inodes |
| KtfsDirSpec.DroppedOk | sys/ktfs.c:866-893 | putting the last entry into the hole removes exactly the named binding, and names and inodes stay unique |
| KtfsDirSpec.EntriesCount | sys/ktfs.c:755-805 | a directory has as many entries as inodes |
| KtfsDirectory.ReadEntry | sys/ktfs.c:207-233 | the block and offset computed for entry e hold entry e of the directory |
| KtfsDirectory.Lookup | sys/ktfs.c:235-285 | finds the first entry with the name, or returns -ENOENT if there is none |
| KtfsDirectory.NewInode | sys/ktfs.c:769-779 | takes the lowest free inode, empty and owning nothing; no file changes |
| KtfsDirectory.GrowRoot | sys/ktfs.c:781-794 | the root grows by 16 bytes, with a new block exactly when the last one is full; entries and other files are kept |
| KtfsDirectory.AddEntry | sys/ktfs.c:781-804 | the directory has exactly one more entry, at its end |
| KtfsDirectory.Create | sys/ktfs.c:755-805 | -EINVAL and no change if the name exists; else one more entry for a fresh inode of size 0, no other file changed, names unique, root size 16 times the entries, live inodes exactly those named |
| KtfsDirectory.MoveLast | sys/ktfs.c:868-877 | the last entry is copied over the deleted one and no other entry changes |
| KtfsDirectory.ShrinkRoot | sys/ktfs.c:879-893 | the root loses its last entry, and its last block exactly when that held only this entry |
| KtfsDirectory.FreeBlocks | sys/ktfs.c:903-911 | freeing blocks n-1 down to 0 gives back exactly the blocks of the inode |
| KtfsDirectory.FreeFile | sys/ktfs.c:899-913 | the inode and all its blocks are given back, and nothing else |
| KtfsDirectory.Delete | sys/ktfs.c:821-914 | -EINVAL and no change if there is no such name; else exactly that entry is gone, its inode and blocks are free again, and no other file changes |
| KtfsDirectory.ExtendAll | sys/ktfs.c:287-305 | any sequence of extensions takes exactly the count formula's number of blocks for the final size, whatever the steps |
| KtfsDirectory.CreateGrowDelete | sys/ktfs.c:755-914 | a file created, extended any number of times and deleted leaves the directory, both bitmaps and all other files exactly as they were |
| KtfsChanges.OkRemoved | sys/ktfs.c:899-913 | once an inode's blocks are given back, the rest of the volume is sound without it |
| KtfsChanges.OkShrunk | sys/ktfs.c:879-893 | a file cut down keeps its first bytes and the volume stays sound |
| KtfsChanges.OkSizedGrown | sys/ktfs.c:781-794 | a file whose size was recorded before its blocks came is sound once they are there |
| FreeLists.CanonicalIsUnique | sys/memory.c:593-683 | two address-sorted lists of non-adjacent chunks with the same free pages are the same list |
| FreeLists.RunsLieInOneChunk | sys/memory.c:593-643 | n consecutive pages are free exactly when one chunk has n pages |
| FreeLists.TotalCountsPages | sys/memory.c:686-692 | the sum of the chunk sizes is the number of free pages |
| FreePages.PhysMem.AllocPhysPages | sys/memory.c:593-643 | grants the zeroed tail of a smallest sufficient chunk, takes exactly these pages, keeps the list canonical, and panics exactly when no n consecutive pages are free |
| FreePages.PhysMem.FindBest | sys/memory.c:600-620 | the search loop ends at a smallest sufficient chunk, or no chunk suffices |
| FreePages.PhysMem.FreePhysPages | sys/memory.c:645-683 | adds exactly the given pages and makes the list canonical again |
| FreePages.PhysMem.InsertByAddress | sys/memory.c:652-667 | links the chunk in at its place by address, in the memory of its first page |
| FreePages.PhysMem.Coalesce | sys/memory.c:669-682 | the merging loop terminates, joins all adjacent chunks, and frees and loses no page |
| FreePages.PhysMem.FreePhysPageCount | sys/memory.c:686-692 | returns the number of free pages |
| FreePages.AllocThenFree | sys/memory.c:593-683 | freeing the run just allocated restores the identical list and headers |
| PageTrees.FootInMemory | sys/memory.c:308-397 | all pages of an address space are table or data pages in memory |
| PageTrees.Frame | sys/memory.c:308-397 | what a space maps depends on its own pages only |
| PageTrees.Replace | sys/memory.c:308-397 | changing one entry rebuilds the tree around it and leaves what the other entries map |
| PageTables.Mmu.CloneActiveMspace | sys/memory.c:308-361 | the clone maps the same user pages with the same flags and contents, shares no page with the source, has identical global entries, takes its pages from the free list, and fails only when that is empty |
| PageTables.Mmu.CloneTables | sys/memory.c:325-354 | one level of the clone: each level-1 table and the leaves below it are copied to fresh pages |
| PageTables.Mmu.CloneLeaves | sys/memory.c:336-350 | each mapped page is copied to a fresh page under the same flags |
| PageTables.Mmu.ResetActiveMspace | sys/memory.c:368-397 | frees exactly the pages reached through non-global entries, each once and none read afterwards; global entries stay |
| PageTables.Mmu.ResetTables | sys/memory.c:374-394 | one level of the reset: the tables and leaves below are freed, the entries cleared |
| PageTables.SpacesAreIndependent | sys/memory.c:308-397 | whatever happens to the pages of one space and to free pages, the other translates and reads as before |
| PageTables.ResetKeepsOthers | sys/memory.c:368-397 | resetting one space leaves every other space as it was |
| PageTables.CloneThenReset | sys/memory.c:308-397 | resetting a clone returns every free page but the root of the clone, and leaves the source as it was; it fails only if the pages run out while cloning |
| PageWalks.TablesDistinct | sys/memory.c:418-437 | tables at different places of a tree are different pages |
| PageWalks.MappedIsNoTab | sys/memory.c:418-437 | a page that a space maps is none of its tables |
| PageWalks.HangBelowRoot | sys/memory.c:418-423 | hooking an empty table into the root adds that table and changes no walk |
| PageWalks.HangBelowPt1 | sys/memory.c:425-430 | hooking an empty table into a level-1 table adds that table and changes no walk |
| PageWalks.SetLeafWalks | sys/memory.c:470-479 | any word written into a leaf entry changes the walk of that page number only, and no table |
| PageWalks.VpnParts | sys/memory.c:107-110 | a virtual page number is determined by its three nine-bit indices |
| PageWalks.SetLeaf | sys/memory.c:445-462 | mapping a page at a leaf entry keeps the tree and changes the walk of that page number only |
| PageMaps.GetLeaf | sys/memory.c:418-437 | makes missing tables, zeroed and unshared, on the way down, changes no walk, and ends at the entry for the page number; fails only with no free page left, and never if the tables are there |
| PageMaps.MapRange | sys/memory.c:445-462 | afterwards every page number inside the range leads to its page with the flags, every other one where it led before; exactly the pages that left the free list became tables; no mapped page is written to; fails only by running out of pages |
| PageMaps.AllocAndMapRange | sys/memory.c:464-468 | maps a run of pages that were free and read as zeros; only they and new tables leave the free list, and what was mapped keeps its contents; fails only if no run is long enough or the pages run out |
| PageMaps.SetRangeFlags | sys/memory.c:470-479 | the pages inside the range keep their place and get the flags, all others keep both; the set of mapped pages is kept exactly if the whole range was mapped, and then the call cannot fail and the space keeps its pages |
| PageMaps.FlagsMapAll | sys/memory.c:470-479 | setting flags maps whatever it meets: the same pages are mapped before and after exactly if the whole range was mapped |
| PageMaps.StaleEntryRevived | sys/memory.c:470-479 | a concrete space in which the call turns an entry that was unmapped back into a mapping, of a page that is free |
| PageMaps.KernelWalksKept | sys/memory.c:445-479 | walks through the kernel's global entries stay as they are |
| PageMaps.MappingKeepsOthers | sys/memory.c:445-479 | mapping and setting flags in one space leaves every other space as it was |
| CacheSpec.Find | sys/cache.c:113-133 | the search ends at the first line with the block, or there is none |
| CacheSpec.Victim | sys/cache.c:137-146 | the victim is the last unpinned line, and none exactly if all are pinned |
| Cache.BlockCache.GetBlock | sys/cache.c:100-195 | the linked list does what the specification of a hit, an eviction and a load says, and hands out the node at its head |
| Cache.BlockCache.Bypass | sys/cache.c:117-120 | unlinks a node from the middle or end; the list stays doubly linked |
| Cache.BlockCache.Prepend | sys/cache.c:121-124 | links it in again at the front |
| Cache.BlockCache.FindVictim | sys/cache.c:139-146 | the walk from the tail ends at the specification's victim |
| Cache.BlockCache.MakeRoom | sys/cache.c:137-166 | a full cache writes back and drops its victim, or reports -EBUSY or -EIO |
| Cache.BlockCache.Unlink | sys/cache.c:156-163 | removes a node; the list stays doubly linked |
| Cache.BlockCache.LoadNode | sys/cache.c:168-193 | a fresh pinned node with the block's data becomes the head, or nothing changes |
| Cache.BlockCache.ReleaseBlock | sys/cache.c:203-213 | one pin less, and dirty if the holder says so |
| Cache.BlockCache.FlushCache | sys/cache.c:220-241 | writes dirty nodes back in order, up to the first failure |
| CacheProofs.GetKeeps | sys/cache.c:100-195 | getting a block keeps what every block shows, adds one pin to this block and to no other, and returns -EBUSY exactly when every node is pinned |
| CacheProofs.GetKeepsViewExactlyUnlessLost | sys/cache.c:147-180 | with any device result the view is kept exactly unless a negative store result drops unsaved data or a negative fetch result leaves zeros for a block that is not zero |
| CacheProofs.FailedStoreLosesBlock | sys/cache.c:147-154 | a concrete state where this loses a block |
| CacheProofs.ReleaseKeeps | sys/cache.c:203-213 | an honest release keeps the invariant and the view |
| CacheProofs.WriteShows | sys/cache.c:203-213 | writing a pinned block changes what this block shows and no other |
| CacheProofs.FlushKeeps | sys/cache.c:220-241 | a flush keeps the view, whatever the device returns; it keeps the invariant exactly unless a negative result marks an unpinned line clean that differs from the disk |
| CacheProofs.FlushSettles | sys/cache.c:220-241 | after a flush that reports success with nothing pinned the disk is the view exactly if every dirty line with a negative result agreed with the disk; it reports failure exactly if a dirty line got a result from 0 to 511 |
| CacheProofs.FailedFlushLosesBlock | sys/cache.c:228-236 | a concrete state where the flush reports success and leaves the disk old |
| CacheRuns.CacheRefinesDisk | sys/cache.c:100-241 | after any run of gets, writes, releases and flushes the cache shows what the plain disk would hold |
| CacheRuns.ListIsByUse | sys/cache.c:113-133 | the list is always in order of last use |
| CacheRuns.VictimIsLeastRecent | sys/cache.c:137-146 | the block given up is the unpinned one whose last use is longest ago |
| SchedulerProofs.StepKeepsLists | sys/thread.c:454-717 | every step keeps every ready thread on the ready list and every waiting thread on its condition's list, exactly once, even if an interrupt broadcasts between insertion and suspension |
| SchedulerProofs.DispatcherFindsThread | sys/thread.c:645-660 | the dispatcher never finds the ready list empty, because the idle thread never waits |
| SchedulerProofs.NeverOnTwoLists | sys/thread.c:454-499 | no thread is on two lists, nor on one twice |
| SchedulerProofs.BroadcastLists | sys/thread.c:483-499 | a broadcast moves exactly the waiters of the condition to the ready list |
| SchedulerRuns.StepKeeps | sys/thread.c:317-411 | every step keeps the lists, the locks and the joins in order |
| SchedulerRuns.LockOwnership | sys/thread.c:501-527 | in every reachable state a lock is owned by t exactly when it is once on t's list with a positive count; a free lock has no waiters |
| SchedulerRuns.NoWakeUpIsLost | sys/thread.c:354-411 | while a thread runs, nobody sleeps in thread_join on a child that has exited, including children handed over by reclaim, and an exited thread holds no lock |
| SchedulerRuns.ListsInRuns | sys/thread.c:454-717 | in every reachable state the lists hold each thread as often as its state says |
| SchedulerRuns.ReclaimKeeps | sys/thread.c:561-579 | handing an exited child's children to the running thread leaves no sleeper with an exited child |
| SchedulerRuns.TellKeeps | sys/thread.c:326-333 | by the time an exit is seen, a parent asleep in thread_join has been woken |
| SchedulerRuns.FreeLockKeeps | sys/thread.c:751-767 | an exiting thread frees its locks one by one, waking their waiters |
| SchedulerRuns.ExitedStaysExited | sys/thread.c:317-338 | an exited thread never runs again |
| SchedulerRuns.WaitsForAtMostK | sys/thread.c:630-672 | the thread at position k of the ready list is dispatched after exactly k others, whatever happens in between |
| ThreadLists.ThreadList.Insert | sys/thread.c:683-698 | appends the thread to the linked list |
| ThreadLists.ThreadList.Remove | sys/thread.c:700-717 | takes the first thread off, NULL exactly for an empty list |
| ThreadLists.Broadcast | sys/thread.c:483-499 | all waiters move to the end of the ready list, in order, ready and with no wait condition |
| ThreadLists.Suspend | sys/thread.c:630-655 | a running thread queues up last; the head of the ready list is next |
| ThreadLists.ConditionWait | sys/thread.c:454-473 | the waiting thread joins the end of the condition's list, and the head of the ready list is next |
| ThreadLists.Holder.Acquire | sys/thread.c:506-517 | a free lock heads the holder's list with count 1; a held one counts up; another thread's lock is waited for and unchanged |
| ThreadLists.Holder.Release | sys/thread.c:519-527 | counts down, and at zero leaves the list, the other locks in place, with all waiters moved to the ready list |
| ThreadLists.Holder.Unhold | sys/thread.c:738-749 | wakes the waiters in order; the walk finds the lock and unlinks exactly it |
| ThreadLists.Holder.ReleaseAll | sys/thread.c:751-767 | frees every held lock, empties the list and moves the waiters of all of them to the ready list, lock by lock |
| VioBlkProofs.BytesAreRight | sys/dev/vioblk.c:376-382 | a transfer covers the whole blocks asked for that fit, exactly unless the 64-bit sum wraps to a value within the capacity |
| VioBlkProofs.WrappedSumIsNotCut | sys/dev/vioblk.c:376-382 | a concrete call whose length wraps around and is not cut off |
| VioBlkProofs.AtMostOneOutstanding | sys/dev/vioblk.c:397-412 | the indices of the two rings differ by 0 or 1, modulo 2^16 |
| VioBlkProofs.StepKeeps | sys/dev/vioblk.c:366-515 | every step of any thread or the device keeps the request in the shared buffers the lock holder's own |
| VioBlkProofs.CompleteKeeps | sys/dev/vioblk.c:407-417 | the device's answer is the sector of the request, and a failed one spoils no other sector |
| VioBlkProofs.TransfersAreExact | sys/dev/vioblk.c:366-515 | in any interleaving a successful fetch returns exactly its sectors of a disk that did not change meanwhile, a successful store changed exactly its sectors, and a failed call changed no others |
| RingBuffers.PosIs | sys/uio.c:307-318 | positions count characters and start over: at 1 after 2^16 where uint_fast16_t has 16 bits, else at 0 |
| RingBuffers.FullIs | sys/uio.c:303-305 | a full buffer is seen to be full exactly when its end is in the same lap of uint_fast16_t as its beginning |
| RingBuffers.PutHolds | sys/uio.c:307-311 | in every lap, putting a character into a buffer with room appends it to the queue |
| RingBuffers.RestHolds | sys/uio.c:313-318 | in every lap, getting a character takes the oldest one off the queue |
| RingBuffers.TakeAllHolds | sys/uio.c:248-252 | a read takes as many of the oldest characters as there are and fit, and leaves the rest |
| RingBuffers.PutAllHolds | sys/uio.c:287-291 | a write that does not overrun appends as many characters as there is room for |
| RingBuffers.PutAllOverruns | sys/uio.c:287-291 | a write of more than there is room for, with the next lap less than a page ahead, goes beyond the room |
| RingBuffers.RingBuf.Take | sys/uio.c:248-252 | the copy loop of a read on the buffer in memory does just that, and leaves the rest of the caller's buffer |
| RingBuffers.RingBuf.Give | sys/uio.c:287-291 | the copy loop of a write on the buffer in memory does just that |
| Pipes.StepKeeps | sys/uio.c:202-296 | a turn of a reader, writer or closer keeps the pipe in order exactly unless it is a write that overruns, and streams only grow |
| Pipes.IntactExactlyIfLossless | sys/uio.c:225-318 | in a run, what was read is always a prefix of what was written and the buffer always holds the rest, exactly if no write turn overruns |
| Pipes.PipesAreSound | sys/uio.c:80-96 | over any run without an overrun the bytes read are a prefix of those written, with the rest in the buffer; a sleeping reader means an empty buffer and a live writer, a sleeping writer a full one and a live reader; the buffer is freed once, when both ends are closed |
| Pipes.LosslessWithinTotal | sys/uio.c:303-318 | no write overruns if uint_fast16_t has 64 bits, or while the total written stays within its positions |
| Pipes.OverrunReadsWrongByte | sys/uio.c:303-318 | with 16 or 32 bits, a concrete run that reads a byte which was not written there |
| Pipes.PipeObject.Read | sys/uio.c:225-257 | a turn of pipe_read on the object in memory is the next turn of its run: what it returns is what the model reads |
| Pipes.PipeObject.Write | sys/uio.c:259-296 | a turn of pipe_write is the next turn of its run: what it returns is what the model sends; -EPIPE exactly when no reader is left |
| Pipes.PipeObject.Close | sys/uio.c:80-96 | giving up a reference is the next step of its run, and frees the buffer when both ends are closed |
| CrlfFilters.OutSplit | usr/uio.c:301-407 | output in pieces is output at once |
| CrlfFilters.InSplit | usr/uio.c:237-299 | input in pieces is input at once |
| CrlfFilters.OutIdempotent | usr/uio.h:191-208 | writing through two filters is writing through one |
| CrlfFilters.InIdempotent | usr/uio.h:191-208 | reading through two filters is reading through one |
| CrlfFilters.InOfOut | usr/uio.h:191-208 | reading back what was written gives what reading the original gives |
| UioTerm.Term.Write | usr/uio.c:301-407 | if raw writes succeed it succeeds, and emits exactly what the two-state filter says, character by character, despite look-ahead and deferred writes; returns the length less a line feed already accounted for; if a raw write fails, a prefix of that has gone out |
| UioTerm.Term.Turn | usr/uio.c:322-390 | each branch of the switch leaves the output and the unwritten rest adding up to the filtered stream, and fails only if a raw write does |
| UioTerm.Term.Filter | usr/uio.c:258-289 | the scan in place leaves exactly the filtered characters at the front of the buffer |
| UioTerm.Term.Read | usr/uio.c:237-299 | if raw reads succeed, returns at least one character exactly if the raw input filters to something; what it returns is the filtered form of the raw characters consumed, after at most two raw reads; a failure loses nothing |
| UioTerm.SomethingComes | usr/uio.c:291-296 | a raw read is filtered away entirely only if it ended a line ending, and then the next is not |
| Rounding.DownDivides | sys/misc.h:14 | rounding down by subtraction is the quotient times the divisor |
| StorageUio.StorageUio.UnalignedFetch | sys/device.c:769-778 | copies exactly the part of the block that pos is in |
| StorageUio.StorageUio.UnalignedStore | sys/device.c:832-848 | changes exactly that part, through read, modify and write; a failure may spoil that block and nothing else |
| StorageUio.StorageUio.Read | sys/device.c:725-760 | returns exactly the bytes from pos on, complete unless the device fails, touches no more of the buffer than asked for, and advances pos by the result |
| StorageUio.FetchedExactly | sys/device.c:725-760 | what a complete read promises, as slices of buffer and device |
| StorageUio.StorageUio.Write | sys/device.c:787-823 | without a device failure changes exactly the bytes from pos on, and advances pos by the length; after a failure the bytes reported as written are in place and nothing outside the blocks of the transfer has changed |
| Sequences.OverwrittenExactly | sys/device.c:787-823 | what a complete write promises, as slices of the device before and after |
| InitialStack.Measure | sys/process.c:322-330 | the size loop refuses exactly when vector and strings exceed a page |
| InitialStack.BuildStack | sys/process.c:310-357 | -ENOMEM exactly for a negative argc or when vector and strings exceed a page; else the size is a multiple of 16, at most 4096, and vector, strings and final NULL are in place |
| InitialStack.StringReadsBack | sys/process.c:346-351 | reading from a string's place up to the NUL gives the string |
| InitialStack.StackReadsBack | sys/process.c:341-355 | following the user pointers recovers every string; vector and strings lie in the page and do not overlap |

## Left out

- KtfsFiles.FileSystem.Fetch: requires pos at most the file size and no wrap-around of pos + len, because the code
  subtracts pos from the size without a check.
- KtfsFiles.FileSystem.Store: requires pos + len at most 32900 blocks and enough free blocks, because the tests for a
  negative block number compare an unsigned value and never hold; bytes between the old end and pos are whatever the
  new blocks held.
- KtfsVolume.Volume.AllocateBlockFromInode: requires the free blocks that the file block needs, for the same reason;
  what the search returns without them is in KtfsVolume.Volume.AllocateDataBlock. So do KtfsFiles.ChangeFileSize,
  KtfsDirectory.GrowRoot and KtfsDirectory.AddEntry.
- KtfsDirectory.Create: requires a name of 1 to 13 characters, a free inode on the volume and the blocks for a longer
  root, likewise; KtfsDirectory.NewInode requires the free inode, see KtfsVolume.Volume.AllocateInode.
- KtfsDirectory.Delete: says nothing about a file that is still open.
- KTFS blocks are read and written directly; pinned cache buffers held across allocations are not modelled, and device
  errors, which panic, are not either. Inodes are a sequence rather than packed sixteen to a block.
- `ktfs_open`, `ktfs_close`, `ktfs_cntl` beyond extending, and the listing: short list and switch code.
- PageMaps.MapRange: covers mappings without the G flag below non-global level-2 entries; PageMaps.SetRangeFlags
  does, too.
- FreePages.PhysMem.FreePhysPages: requires that the pages are not free already, as its callers must ensure; a page
  count is not cut to 32 bits.
- `unmap_and_free_range`, `handle_umode_page_fault`, `validate_vptr`, `validate_vstr` and `memory_init`.
- Address-space identifiers, `sfence.vma` and the switch of `satp`.
- CacheProofs.GetKeeps: assumes device results between 0 and 512; its exact form for other results is
  CacheProofs.GetKeepsViewExactlyUnlessLost. CacheRuns.CacheRefinesDisk assumes them in all operations of a run.
- Out-of-memory and null-pointer returns of the cache, of open calls and of the pipe constructor.
- Scheduler: stacks, context switch in assembly and memory spaces; `thread_set_process`; the halt of the main thread.
  A woken thread may do anything its code could, not only retry.
- VioBlkProofs.TransfersAreExact: assumes that the device is not closed during a call, that a call's length does not
  wrap around, and that the block size is a multiple of 512.
- Pipes.PipesAreSound: speaks of runs without an overrun, the only ones that are in order; it assumes that an end is
  closed only by a holder of a reference and that its last reference goes when no call is in progress on it.
- UioTerm.Term.Write: assumes that a raw write takes everything or fails.
- UioTerm.Term.Read: assumes that a raw read gives at least one character or fails.
- StorageUio.StorageUio.Read: requires that the range lies on the device, whose capacity is a multiple of the block
  size; StorageUio.StorageUio.Write requires the same.
- Devices other than the block driver, the PLIC, timers, both heaps, the string functions, boot, ELF loading, system
  calls, file-descriptor tables and the user programs.

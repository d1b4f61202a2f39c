# Verification of the VM simulator's paged memory

A fixed set of memory frames acts as a write-back cache over a simulated disk. An inverted page table says
which page is in which frame, a page replacement manager (PRM) fills and evicts frames, an aging daemon keeps
the histories that victims are chosen by, and every process owns one block of disk pages. The project models
that system and proves that each process nevertheless sees a plain array of bytes.

The model has three layers.

1. **Values.** `PageTable` is the page table as slots and a queue of free frames; `Cache` is the whole memory
   system as a value, with one function per operation and the coherence invariant; `Runs`, `Swapping`,
   `Aging`, `Recency`, `Blocks` and `PageRanges` prove what holds over whole runs.
2. **Classes.** `Queue`, `Bitmap`, `AssocMap`, `Ipt`, `Disk`, `Mmu`, `Prm`, the access methods of
   `MmuAccess`, the byte loops of `SimIo` and the container of `Processes` update arrays, links and fields in
   place as the C code does. Each method is proved equal to the operation on values: `Ipt.View`,
   `Mmu.View`, `Queue.Contents`, `AssocMap.Model`, `Bitmap.Bits` and `Disk.Pages` are the abstractions.
3. **Steps.** `Protocol` is a transition system: one thread per process, the PRM thread and the daemon,
   with the MMU's read/write lock, the container lock, the daemon's mutex, the command queue and the two
   handshakes. Its memory operations are those of `Cache`. `ProtocolInv` states the invariant, `ProtocolProc`
   and `ProtocolSystem` prove that every step keeps it; `ProtocolTheorems`, `ProtocolService`,
   `ProtocolRecency`, `ProtocolLedger`, `ProtocolProgress` and `ProtocolFinish` draw the conclusions.

## How to read the main results

- *Flat memory.* `Runs.RunRefines` ranges over the bytes written since their page was allocated, because
  `mmu_alloc_page` maps a fresh page without loading it (vmsim/mmu.c:85-90). A byte never written may change
  while its page is away: `Swapping.FreshPageChanges` is a concrete case and `Runs.CycleKeepsPage` the exact
  condition under which a page survives as a whole.
- *Page table.* `IptChains` and `Ipts` are about the chains threaded through the entries; the lemmas of
  `PageTable` say what the same operations do to the partial map from pages to frames.
- *Concurrency.* `Next` yields `None` when an assertion of the source would fail, so the `Some?` in
  `ProtocolSystem.StepSafe` and `RunSafe` says that none ever does.
- *Atomic service.* The PRM evicts, maps and loads in separate steps. `ProtocolService.ServiceIsAtomic` says that
  together they are one `Cache.SwapIn`, so `Swapping.SwapInWithRoom` and `SwapInWithEviction` apply to it.
- *Progress.* A timed wait may end at any time, so waiting for a flag is a step that the flag enables.
  `NoDeadlock` says that some thread already at work can step; `FaultsCanFinish` and `AgingCanFinish` say that
  such steps alone can complete every outstanding fault command and aging request, and
  `ProtocolFinish.EveryProcessCanFinish` that they can bring any process to rest, through the retry loop of
  `mmu_pin_page`, its aging request, its creation or its destruction.
- *Victims.* `Recency` computes from a run the log of faults, references and aging rounds, without looking at
  ages or dirty bits, and shows that these follow the log: every victim is least recently used by it, and a page
  is dirty exactly when it has been written since it was mapped. `ProtocolRecency` does the same for every
  interleaving of the step model, where the daemon ages one frame at a time.
- *Sums.* `Runs.RunCounts`, `RunCountsHits` and `ProtocolLedger` compare the counters, the disk pages in use and
  the order of service with observations of the run that do not look at them.

## Where the code differs from what it says of itself

- vmsim/prm.c:164-166 expects that a concurrent allocation may take the frame just freed. It cannot: the write
  lock is held, and the loop body runs at most once (`Prms.Prm.Serve`, `ProtocolTheorems.RetrySucceeds`).
- `find_first` reads a block before it compares its index with the bound (util/bitmap.c:35-36). The model gives
  the bitmap two guard blocks of unknown contents, and every result holds whatever they are.
- Addresses are split by the largest power of two not above the page size. The split is linear exactly when the
  page size is that power (`Addresses.SplitAlwaysLinearIff`); with pages of 3 bytes address 2 is misplaced
  (`Addresses.SplitMisplaces`).
- The accounting of references (`Runs.RunCounts`) needs an aging frequency of at least 1; with 0 it holds
  exactly when nothing was accessed (`Runs.RunCountsZero`).
- Blocks stay aligned exactly when they are freed by their start (`Blocks.FreeKeepsAlignedIff`).
- A process that finds no disk block leaves its zeroed slot marked as live (vmsim/pcb.c:65-79).
  `Processes.ProcCont.InitProcess` keeps ownership exactly when, on entry, no slot is junk or first fit finds a
  block; `Processes.FullDiskLosesOwnership` is a disk on which it does not.

`age >>= 1` and `SET_MSB` are modelled as halving and as a bitwise or on 32-bit words; masks and shifts of
addresses likewise (`Bits`).

## Model

| member | source | states |
|---|---|---|
| IptChains.Hash | vmsim/ipt.c:15-18 | the bucket of a page is in range, the product wrapping at 32 bits |
| IptChains.ChainsDisjoint | vmsim/ipt.c:180-228 | chains of different buckets share no entry |
| IptChains.InsertKeepsChains | vmsim/ipt.c:194-228 | linking a free entry behind the tail of its bucket keeps every chain acyclic, doubly linked and complete |
| IptChains.UnlinkKeepsChains | vmsim/ipt.c:230-268 | unlinking at the head, in the middle or at the tail keeps every chain so |
| Ipts.Ipt.constructor | vmsim/ipt.c:66-99 | afterwards no frame is held and every frame is queued once, in order |
| Ipts.Ipt.InitSlots | vmsim/ipt.c:89-95 | the loop clears every bucket and queues frames 0, 1, ... |
| Ipts.Ipt.GetVaddrIdx | vmsim/ipt.c:44-64 | the chain walk ends and finds the frame of a page exactly when the page is resident |
| Ipts.Ipt.GetNextFreeEntry | vmsim/ipt.c:30-42 | takes the frame that has been free longest, or -1 when there is none |
| Ipts.Ipt.HasTranslation | vmsim/ipt.c:134-146 | true exactly for resident pages |
| Ipts.Ipt.IsDirty | vmsim/ipt.c:148-154 | the dirty bit of a resident page |
| Ipts.Ipt.Reference | vmsim/ipt.c:156-171 | marks one page as referenced, and dirty after a write, and counts |
| Ipts.Ipt.Translate | vmsim/ipt.c:173-178 | the frame that holds a resident page |
| Ipts.Ipt.HashListLastElement | vmsim/ipt.c:180-192 | the tail of the bucket's chain, or -1 |
| Ipts.Ipt.Add | vmsim/ipt.c:194-228 | refines adding a binding; fails exactly when no frame is free, changing nothing |
| Ipts.Ipt.Remove | vmsim/ipt.c:230-268 | refines removing a binding, wherever its entry is in the chain; ecNotFound exactly when absent |
| Ipts.Ipt.AgeAll | vmsim/ipt.c:270-281 | one pass ages every resident page once and leaves the chains alone |
| Ipts.Ipt.AgePage | vmsim/aging_daemon.c:34-41 | shift and or of the top bit are the arithmetic aging step, on one entry only |
| PageTable.BindingsAt | vmsim/ipt.c:173-178 | the partial map is defined on resident pages, and is what translate returns |
| PageTable.BindingsInjective | vmsim/ipt.c:194-268 | no frame is bound to two pages |
| PageTable.AddWellFormed | vmsim/ipt.c:194-228 | adding keeps the free queue exactly the vacant frames, once each, and every other page in place |
| PageTable.AddBinds | vmsim/ipt.c:194-228 | adding an absent page changes the map at that page only, to the longest-free frame |
| PageTable.RemoveWellFormed | vmsim/ipt.c:230-268 | removing keeps the table well formed and every other page in place |
| PageTable.RemoveUnbinds | vmsim/ipt.c:230-268 | removing deletes exactly one binding and queues its frame last |
| PageTable.Oldest | vmsim/prm.c:72-91 | the fold returns the first slot of least age other than the target's, or that none is eligible |
| PageTable.VictimExists | vmsim/prm.c:93-101 | with a full table and an absent target there is a victim |
| Prms.Prm.GetOldestPage | vmsim/prm.c:72-91 | one call advances the fold: accumulators right for the frames before this one become right up to it |
| Prms.Prm.ForEachEntry | vmsim/ipt.c:270-281 | the loop over the entries leaves the outcome of the whole fold in the accumulators |
| Prms.Prm.GetPageToSwap | vmsim/prm.c:93-101 | returns the first resident page of least age, never the one to load, and changes nothing |
| Prms.Prm.SwapOut | vmsim/prm.c:115-122 | is an eviction: written back if dirty, then unmapped; neither call fails |
| Prms.Prm.Serve | vmsim/prm.c:149-176 | the eviction loop runs at most once and the whole is one swap-in |
| Prms.Prm.PageFault | vmsim/prm.c:214-227 | a fault brings the page in |
| Swapping.FramesConserved | vmsim/prm.c:149-176 | valid and free frames together are always all frames |
| Swapping.SwapInWithRoom | vmsim/prm.c:151-174 | with a free frame the page is loaded into the longest-free one and no other page moves or changes |
| Swapping.SwapInWithEviction | vmsim/prm.c:151-174 | otherwise exactly the victim leaves, its frame is taken, and no disk page but the victim's is written |
| Swapping.FreshPageChanges | vmsim/mmu.c:85-90 | a fresh page can show bytes of the frame's last page and lose them on reload |
| Runs.CycleKeepsPage | vmsim/mmu.c:294-327 | swapping out and in preserves the whole page if and only if it was dirty or equal to its disk page |
| Mmus.Mmu.constructor | vmsim/mmu.c:22-46 | an empty system over the given disk, all counters zero |
| Mmus.Mmu.MapPage | vmsim/mmu.c:68-76 | maps an absent page, or fails without effect when no frame is free |
| Mmus.Mmu.AllocPage | vmsim/mmu.c:78-97 | maps a fresh page if a frame is free and always binds its disk page |
| Mmus.Mmu.FreePage | vmsim/mmu.c:99-112 | unmaps without write-back and forgets the disk page |
| Mmus.Mmu.UnmapPage | vmsim/mmu.c:163-172 | removes a page; ecNotFound exactly when it was not resident |
| Mmus.Mmu.SyncToBackingPage | vmsim/mmu.c:294-327 | writes exactly the page's disk page when dirty, nothing when clean, and succeeds |
| Mmus.Mmu.SyncFromBackingPage | vmsim/mmu.c:329-356 | fills exactly the page's frame from its disk page |
| Mmus.Mmu.CopyOut | vmsim/mmu.c:248-251 | copies the addressed bytes of the page's frame, nothing else in the buffer changes |
| Mmus.Mmu.CopyIn | vmsim/mmu.c:282-285 | patches the addressed bytes of the page's frame and no other frame |
| Mmus.Mmu.ReadFrame | vmsim/mmu.c:248-249 | copying from a physical address reads one frame and changes nothing in the system |
| Mmus.Mmu.WriteFrame | vmsim/mmu.c:282-283 | copying to a physical address patches one frame and nothing else |
| Mmus.Mmu.Bind | vmsim/mmu.c:89-90 | binds the disk page of a page that had none, found absent by the lookup before |
| Mmus.Mmu.Unbind | vmsim/mmu.c:107 | forgets one disk page and nothing else |
| Mmus.Mmu.AgeRound | vmsim/mmu.c:218-222 | zeroes the count and ages every page once |
| MmuAccess.PinPage | vmsim/mmu.c:174-202 | counts the reference and brings the page in; the retry loop ends after one fault |
| MmuAccess.AgePagesIfNeeded | vmsim/mmu.c:211-224 | ages exactly when the frequency is reached |
| MmuAccess.Read | vmsim/mmu.c:226-258 | returns every written byte of flat memory, whatever was evicted before, and keeps coherence |
| MmuAccess.Write | vmsim/mmu.c:260-292 | afterwards the system holds flat memory with exactly those bytes written |
| MmuAccess.AllocMultiple | vmsim/mmu.c:115-137 | consecutive pages on consecutive disk pages, the loop always completing |
| MmuAccess.FreeMultiple | vmsim/mmu.c:139-161 | frees each page of the range once |
| Cache.OnlyPage | vmsim/mmu.c:294-356 | frame rule: a step that touches one page keeps every other page coherent |
| Cache.SyncToCoherent | vmsim/mmu.c:294-327 | after a sync the disk copy is complete, also when the write was skipped |
| Cache.EvictCoherent | vmsim/prm.c:115-122 | eviction loses no written byte |
| Cache.MapCoherent | vmsim/prm.c:151-172 | a page mapped but not yet loaded still has its disk copy |
| Cache.LoadCoherent | vmsim/prm.c:174 | loading restores full coherence |
| Cache.SwapInCoherent | vmsim/prm.c:149-176 | a swap-in keeps coherence |
| Cache.AllocCoherent | vmsim/mmu.c:78-97 | a fresh page has no written bytes and disturbs none |
| Cache.FreeCoherent | vmsim/mmu.c:99-112 | freeing a page disturbs no other page |
| Cache.ReadCoherent | vmsim/mmu.c:226-258 | a read returns what flat memory has and keeps coherence |
| Cache.WriteCoherent | vmsim/mmu.c:260-292 | a write has the effect it has on flat memory |
| Runs.StepRefines | vmsim/mmu.c:78-292 | every operation refines its flat counterpart |
| Runs.RunRefines | vmsim/mmu.c:226-292 | over every run each read returns, for each byte written since allocation, the last value written |
| Runs.InitialRefines | vmsim/mmu.c:22-46 | the initial system holds the empty flat memory |
| Runs.RunCounts | vmsim/mmu.c:174-224 | with frequency at least 1: references are frequency times rounds plus the count, which stays below the frequency; misses are swap-ins |
| Runs.RunCountsHits | vmsim/mmu.c:174-202 | over every run hits grow by the accesses that found their page resident, swap-ins by all the others |
| Runs.RunCountsZero | vmsim/mmu.c:211-224 | with frequency 0 every access ages, and the sum holds if and only if there was none |
| Aging.AgeEncodesHistory | vmsim/aging_daemon.c:34-41 | an age is the reference history, latest round on top, then the initial 1, cut to 32 bits |
| Aging.AgeOrderIsHistoryOrder | vmsim/aging_daemon.c:34-41 | comparing ages is comparing histories lexicographically |
| Aging.RunTracks | vmsim/ipt.c:101-171 | over every run of map, unmap, reference and aging each page's age is that of its own history |
| Aging.VictimIsLeastRecentlyUsed | vmsim/prm.c:72-101 | by any log that the ages follow, no resident page has a smaller history than the victim, and ties go to the first frame |
| Recency.OpTracks | vmsim/mmu.c:174-292 | every operation of the memory system keeps the ages, reference bits and dirty bits those of its log |
| Recency.RunFollowsLog | vmsim/mmu.c:78-292 | so does every run |
| Recency.EveryVictimIsLeastRecentlyUsed | vmsim/prm.c:93-176 | over every run from the initial system, a fault with all frames in use evicts a page that is least recently used by the log of the run |
| Recency.EvictWritesByLog | vmsim/mmu.c:302-321 | eviction writes the page's disk page if and only if the log has the page written since it was mapped |
| Recency.DirtyMeansWritten | vmsim/ipt.c:156-171 | over every run a resident page is dirty if and only if it was written since it was mapped, so evicting one only read changes no disk page |
| Bits.OrTopBit | util/vmsim_types.h:17 | setting a bit above all others adds it |
| Bits.AndLow | util/app_util.c:61-65 | masking with a power of two less one is the remainder |
| Bits.AndHigh | util/app_util.c:54-59 | masking off low bits subtracts the remainder |
| Addresses.PageShift | util/app_util.c:27-36 | the exponent of the largest power of two not above the page size |
| Addresses.PageMask | util/app_util.c:38-47 | the 32-bit mask with exactly the low bits of that power clear |
| Addresses.PageFromAddress | util/app_util.c:54-59 | the quotient by that power |
| Addresses.OffsetFromAddress | util/app_util.c:61-65 | the remainder by that power |
| Addresses.MakeVirtAddr | util/app_util.c:353-358 | the split of a user's address, its offset within the page |
| Addresses.SplitIsLinearIff | util/app_util.c:54-65 | page * size + offset is the address if and only if the page size is a power of two or the address is below it |
| Addresses.SplitAlwaysLinearIff | util/app_util.c:54-65 | every address is split linearly if and only if the page size is a power of two |
| Addresses.SplitMisplaces | util/app_util.c:54-65 | with pages of 3 bytes address 2 is split as byte 3 |
| Addresses.SplitOnto | util/app_util.c:353-358 | for a power of two every page and offset is the split of one address |
| Addresses.AdvanceVirtAddr | util/pcb_util.c:241-249 | the loop ends having carried whole pages, the offset again below the page size, with 32-bit page numbers |
| Addresses.AheadIsLinear | util/pcb_util.c:241-249 | advancing adds exactly the step to the linear address |
| Addresses.AheadAdds | util/pcb_util.c:241-249 | two advances are one by the sum |
| SimIo.SimWrite | util/pcb_util.c:299-319 | stores the first min(amount, page size) bytes at consecutive addresses, over page boundaries |
| SimIo.SimLoopWrite | util/pcb_util.c:321-342 | stores one byte at every step of the loop |
| SimIo.SimRead | util/pcb_util.c:251-297 | collects the written bytes at every step of the loop, changing no memory |
| SimIo.StoredBack | util/pcb_util.c:299-319 | the bytes of a stored string do not overwrite one another |
| SimIo.LoopStored | util/pcb_util.c:321-342 | the byte of the loop is at every address of the loop, overlaps included |
| SimIo.StoresOnly | util/pcb_util.c:299-342 | the loops change no byte but those at their addresses |
| SimIo.StringRoundTrip | util/pcb_util.c:251-319 | a stored string is still there after every run that leaves the process's pages alone |
| SimIo.NthIsSplit | util/pcb_util.c:241-249 | for a power of two the i-th byte of the loop is the one that user address + i names |
| SimIo.UserStringReadsBack | util/pcb_util.c:251-319 | over flat memory that holds a stored string, and after every run that spares the process's pages, reads of consecutive user addresses return it, through all evictions |
| SimIo.WriteReadBack | util/pcb_util.c:251-319 | end to end: sim_write and then sim_read with step 1 from a user address return the first min(amount, page size) bytes |
| Queues.Queue.Push | util/queue.c:54-69 | appends to the linked list |
| Queues.Queue.Pop | util/queue.c:33-52 | takes the oldest item; nothing from an empty queue |
| AssocMaps.AssocMap.FindKey | util/map.c:6-17 | the index of a key, -1 exactly when absent |
| AssocMaps.AssocMap.Set | util/map.c:40-58 | refines map update, overwriting or growing both arrays |
| AssocMaps.AssocMap.Get | util/map.c:60-73 | refines map lookup |
| AssocMaps.AssocMap.Remove | util/map.c:75-92 | refines map deletion; ecNotFound exactly when absent |
| AssocMaps.RemoveIdx | util/map.c:19-27 | shifts the later elements down by one |
| Bitmaps.SetBitExact | util/bitmap.c:12 | setting a bit of a block changes that bit only |
| Bitmaps.ClearBitExact | util/bitmap.c:13 | clearing a bit of a block changes that bit only |
| Bitmaps.Bitmap.constructor | util/bitmap.c:15-24 | every bit clear |
| Bitmaps.Bitmap.FindFirst | util/bitmap.c:26-59 | the least index with the value or -1 when there is none, whatever the padding and guards hold |
| Bitmaps.Bitmap.FirstSet | util/bitmap.c:61-65 | the least set bit, or ecNotFound |
| Bitmaps.Bitmap.FirstClear | util/bitmap.c:67-71 | the least clear bit, or ecNotFound |
| Bitmaps.Bitmap.Set | util/bitmap.c:73-82 | changes one abstract bit |
| Bitmaps.Bitmap.Clear | util/bitmap.c:84-93 | changes one abstract bit |
| Bitmaps.Bitmap.Get | util/bitmap.c:95-102 | reads one abstract bit |
| Disks.CopyToPage | vmsim/disk.c:90-105 | copying into one page of the flat array changes that page and no other |
| Disks.Disk.constructor | vmsim/disk.c:55-72 | zeroed pages, none allocated |
| Disks.Disk.GetPage | vmsim/disk.c:74-88 | copies a whole allocated page, fails on any other |
| Disks.Disk.SetPage | vmsim/disk.c:90-105 | replaces one allocated page, fails on any other without effect |
| Disks.Disk.HasEnoughConsecutivePages | vmsim/disk.c:36-52 | true exactly when the pages exist and are all clear |
| Disks.Disk.AllocProcessBlock | vmsim/disk.c:107-137 | marks the block at the first clear page, or fails without effect when it does not fit there |
| Disks.Disk.FreeProcessBlock | vmsim/disk.c:139-152 | clears exactly the pages of the block |
| Blocks.FirstClearStartsBlock | vmsim/disk.c:114-123 | the first clear page is the start of a free block |
| Blocks.AllocKeepsAligned | vmsim/disk.c:107-137 | allocation adds one aligned block that was free |
| Blocks.AllocFailsWhenFull | vmsim/disk.c:114-128 | allocation fails if and only if every whole block of the disk is in use |
| Blocks.FreeKeepsAlignedIff | vmsim/disk.c:139-152 | freeing keeps the pages a union of aligned blocks if and only if it is given a block's start |
| Blocks.RunKeepsAligned | vmsim/disk.c:107-152 | so after every run of allocations and frees by start |
| PageRanges.AllocRangeCoherent | vmsim/mmu.c:115-137 | allocating a range keeps coherence, its pages having no written bytes |
| PageRanges.FreeRangeCoherent | vmsim/mmu.c:139-161 | freeing a range keeps every other page's bytes |
| PageRanges.AllocFreeRoundTrip | vmsim/mmu.c:115-161 | freeing what was allocated restores everything, the free queue rotated by exactly the frames taken |
| Processes.CreateOwned | vmsim/pcb.c:71-92 | a new process owns pages 0..B-1 on its own clear block, everyone else's unchanged |
| Processes.DestroyOwned | util/pcb_util.c:217-221 | a destroyed process gives back exactly its own pages and block |
| Processes.ProcCont.constructor | vmsim/pcb.c:14-40 | every slot junk, and nothing owned |
| Processes.ProcCont.InitProcess | vmsim/pcb.c:42-113 | takes the first junk slot and the first-fit block; ownership holds if and only if, on entry, no slot is junk or first fit finds a block; -1, -2 and -3 with their effects |
| Processes.FullDiskLosesOwnership | vmsim/pcb.c:65-79 | with a junk slot and no block on the disk, the slot left behind is live and owns nothing |
| Processes.ProcCont.ProcessDealloc | util/pcb_util.c:183-239 | unmaps the pages, frees the block, junks the slot, and keeps ownership |
| Processes.CreateDestroyRoundTrip | util/pcb_util.c:217-221 | creation then destruction restores residency, disk map and disk |
| ProtocolProc.ProcKeepsInv | vmsim/mmu.c:174-292 | every step of a process's thread keeps the invariant |
| ProtocolSystem.CommandsDistinct | vmsim/prm.c:214-227 | with one thread per process no two commands name the same page |
| ProtocolSystem.PrmKeepsInv | vmsim/prm.c:124-184 | every step of the PRM thread keeps the invariant |
| ProtocolSystem.DaemonKeepsInv | vmsim/aging_daemon.c:43-68 | every step of the daemon keeps the invariant |
| ProtocolSystem.AssertsHold | vmsim/mmu.c:68-97 | in every state of the invariant the assertions of the source hold, the one of mmu_map_page among them |
| ProtocolSystem.StepSafe | vmsim/prm.c:149-176 | no step trips an assertion, and each keeps the invariant |
| ProtocolSystem.RunSafe | vmsim/mmu.c:68-292 | nor does any run |
| ProtocolSystem.ReachableInv | vmsim/mmu.c:22-46 | the invariant holds in every reachable state |
| ProtocolTheorems.ReadLockFreezesBindings | vmsim/mmu.c:237-253 | while anyone holds the read lock no step changes which page is in which frame |
| ProtocolTheorems.FrameStable | vmsim/mmu.c:271-287 | from the successful residency test to the end of the copy the page stays in its frame |
| ProtocolTheorems.CopiesDisjoint | vmsim/mmu.c:248-283 | copies in progress work on disjoint bytes of the memory array |
| ProtocolTheorems.AccessIsRight | vmsim/mmu.c:226-292 | in every reachable state a finished read has the last written bytes and a finished write has recorded its own |
| ProtocolTheorems.FlatIsPrivate | vmsim/mmu.c:226-292 | no other thread's step changes a process's flat memory |
| ProtocolTheorems.WriteThenRead | vmsim/mmu.c:226-292 | what a process writes it reads back, over every interleaving in between |
| ProtocolTheorems.CommandsWellUsed | vmsim/prm.c:49-65 | outstanding commands are allocated, not done, name allocated pages absent until mapped, are distinct, and each is served once |
| ProtocolTheorems.RetrySucceeds | vmsim/prm.c:152-172 | after one eviction the PRM's second attempt to map succeeds |
| ProtocolTheorems.TicketIsNextPass | vmsim/aging_daemon.c:71-77 | a request is made between passes, so the next pass starts after it |
| ProtocolTheorems.RequesterSeesPass | vmsim/aging_daemon.c:71-85 | a requester that may return has seen a full pass started after its request |
| ProtocolTheorems.PassAgesEach | vmsim/aging_daemon.c:54-58 | a pass has aged every entry exactly once, and with its reference bit set if it was set when the pass began |
| ProtocolService.OthersLockedOut | vmsim/prm.c:149-176 | while the PRM holds the write lock no other thread's step touches the table, the memory, the disk map or the disk |
| ProtocolService.ServiceIsAtomic | vmsim/prm.c:149-176 | over every interleaving, from taking the lock to the loaded page the PRM has made exactly one swap-in |
| ProtocolService.BootIsReachable | vmsim/mmu.c:22-46 | every configuration with a frame and a byte a page has an initial state that the reachability theorems cover |
| ProtocolRecency.StepFollows | vmsim/aging_daemon.c:34-68 | every step keeps ages, reference bits and dirty bits those of the log of mappings, marks and aged frames |
| ProtocolRecency.AgesFollowTheRun | vmsim/prm.c:93-122 | over every interleaving so does the run; the victim is least recently used by its log, and is written back if and only if logged as written |
| ProtocolLedger.UsedIffOwned | util/pcb_util.c:217-221 | in every reachable state a disk page is in use if and only if it is in the block of a process that is not dead |
| ProtocolLedger.ServedInOrder | vmsim/prm.c:102-139 | faults are served in the order of their commands, none skipped and none twice |
| ProtocolLedger.StepKeepsCounts | vmsim/mmu.c:211-224 | every step changes the counters by what it does |
| ProtocolLedger.CountsAddUp | vmsim/mmu.c:174-224 | over every interleaving references and hits are the residency tests made and passed, unanswered references stay below the frequency but for one a process under way, and with one process each zeroing answers exactly `agingFreq` of them |
| ProtocolProgress.NoDeadlock | vmsim/mmu.c:194-199 | in every reachable state with work in hand a thread already at work can step |
| ProtocolProgress.ServeCommand | vmsim/prm.c:124-184 | from any state of the invariant, steps of threads at work serve a given command |
| ProtocolProgress.FinishAging | vmsim/aging_daemon.c:43-85 | likewise they let a waiting requester return |
| ProtocolProgress.FaultsCanFinish | vmsim/prm.c:124-227 | no outstanding command is ever stuck |
| ProtocolFinish.EveryProcessCanFinish | vmsim/mmu.c:174-224 | in every reachable state every process can be brought to rest by steps of threads already at work |
| ProtocolFinish.FinishServed | vmsim/mmu.c:194-199 | a process whose command has just been served gets past the retry loop |
| ProtocolFinish.FinishApproach | vmsim/mmu.c:174-202 | so does one whose page was evicted again before it came back, by one more fault |
| ProtocolFinish.FinishLife | vmsim/mmu.c:115-161 | creation and destruction can always be completed |
| ProtocolProgress.AgingCanFinish | vmsim/aging_daemon.c:43-85 | no aging request is ever stuck |

## Left out

- The user interface, printing, configuration, logging and the test scaffolding: parsing and terminal or file I/O.
- The pthread wrappers and wall-clock time: locks are abstract lock state, and timed waits may end at any time.
- Fairness: progress is the existence of a finite continuation, not its inevitability; the read/write lock's preference for readers or writers is not modelled.
- Starting and stopping worker threads, and the mailbox and deletion handshakes of the process container: one thread per live process is taken for granted.
- Allocation failure, initialisers that fail, and what freeing an interior pointer after a failed `init_process` does.
- Reads and writes of the memory module (`vmsim/mm.c`): the MMU bypasses them, and a byte array stands for the memory.
- The data race on `referenced` between accesses and an aging pass: each entry is aged in one atomic step, and marking a page is one step.
- The locks of the disk, the statistics and the reference count: each protects a section that waits for nothing, and is part of the step around it.
- 32-bit wrap-around of `nrefs`, `hits` and `ref_count`: counters are unbounded.
- A page table entry's stored offset, and zero frames, zero bits, zero-sized pages or blocks: excluded by precondition.
- Concurrent creation: in the step model a process may be created in any dead slot and on any clear range of disk pages, which includes the first fit that `Processes` proves; a creation that fails is not a step there.
- SimRead: the printing of what was read is not modelled; the bytes are left in the returned buffer.
- InitProcess: whether the thread can be created is a parameter, and a slot has only the fields that memory management uses.
- PageFault: in the sequential classes the command is served at once; the queue and the hand-over are modelled as steps in `Protocol`.

# Tungsten kernel: memory, storage and scheduling algorithms

Dafny models of the stateful algorithms of the Tungsten kernel, with proofs of what they keep over
whole runs. Each part has a specification on values (sets, sequences, maps), theorems about that
specification, and the algorithm itself as the kernel runs it - arrays shifted in place, intrusive
lists, page tables in memory, ring counters - proved to compute the specification.

| part | files |
|---|---|
| buddy allocator | Blocks, Zones (views), FreeLists, Pmm, PageSteps (memory), PageAllocator (the object), PageCount |
| page tables | PageTables, PageRights, VirtualMemory, AddressSpace, UserMaps |
| AES-256 and XTS | Gf256, Substitution, BlockCipher, Aes, XtsMode, Xts, ColumnRounds, KnownBlocks, StandardExample, XtsPartial |
| scheduler | Scheduling, Fairness, Dispatching, RunQueues, SchedCalls |
| message rings | Spsc |
| extent tree | Extents, ExtentCuts, ExtentTrees, ExtentInsert, ExtentShrink, ExtentRuns, ExtentAnswers, NodeBuffers, ExtentStore |
| free space | FreeSpace, SpaceAlloc, SpaceList |
| journal | JournalFormat, Journaling, JournalReplay, JournalCrash, JournalRecovery, JournalRuns, JournalObject |
| slab allocator | SlabPages, SlabCaches |
| shared | Options |

`dafny verify dfyconfig.toml` checks everything.

## Where the code departs from what one would expect

The model follows the code. Where a natural property fails, a lemma shows an input or says when it
fails, and the condition under which it holds is proved.

- Buddy: the scalar counter adds the merged order on a release (`CounterExactIff`); the lengths of the
  free lists are what counts free pages. `init` frees single pages only and merges nothing, so larger
  requests fail until frees merge.
- Page tables: `map_page` over a 2 MiB entry writes into the mapped memory and maps nothing; rounding a
  length near 2^64 wraps to zero. Tables made on the way lack USER, so a page of `mmap_user` is out of
  reach of user mode, whatever its own entry says, wherever no table was there before (`RegionAllows`).
- XTS: a trailing partial block is not stolen from; its bytes stay in the clear and part of the last
  whole block is enciphered twice (`OutsideLastBlock`). Buffers of such a length do not all come back
  (`LengthRoundTripsIff`): for every tweak and every such length a failing buffer is shown, under one key.
- Scheduler: a full queue drops a task; a penalty on a queued task does not move it; `start` over a
  running task loses it. `CallKeepsIff` has the exact conditions.
- Extents: an extent that straddles a separator is in part unreachable (`ChildGrows`). The first index
  key is never lowered, and whether the binary search then still finds a separator below it depends on
  the number of entries (`RouteUndercut`). A failed split loses the upper half of a leaf
  (`FailedSplitLoses`). A hole inside an extent that is not the last of its leaf overwrites the entries
  behind it (`RemoveIsExactIff`), and even where the map is right it leaves a physical length that is too
  short (`PunchedIsFlatIff`).
- Free space: what is left over of an entry is inserted a second time, so `free_bytes` counts it twice
  (`AllocTotal`). The overlaps this leads to make removal split an entry with nothing dropped in front of
  it; every later entry is then overwritten before it is read, and free space is lost for good
  (`RunLeaks`). `AllocIsExactIff` and `RunsConserveIff` say exactly when.
- Journal: data blocks lie before their descriptor but replay reads behind it, so a commit is recovered
  only if it is cut off before its first superblock write or not at all (`CutCommitRecoversIff`). A head
  outside the ring makes replay loop, or copy a descriptor's blocks over and over until more than 10000
  are copied (`ScanEndsIff`, `TameScanEndsIff`, `EndlessReplay`). Staged blocks reach their homes
  before the commit when, and only when, the log is nearly full (`StageWritesHomeIff`). A restart
  forgets what was staged since the last checkpoint (`RunsLoadBack`).
- Slab: the class of 4096 bytes has no slots (`ClassFits`).

## Model

| member | source | states |
|---|---|---|
| Blocks.Laminar | src/mm/pmm.rs:254-406 | two aligned blocks that share a page frame are nested: the larger contains the smaller |
| Blocks.XorNamesBuddy | src/mm/pmm.rs:379 | flipping one bit of the page frame number names the other half of the parent block |
| Blocks.SplitKeepsPartition | src/mm/pmm.rs:320-333 | splitting a block into its halves keeps an exact, disjoint cover |
| Blocks.MergeKeepsPartition | src/mm/pmm.rs:378-396 | merging a block with its buddy keeps an exact, disjoint cover |
| FreeLists.InitSpells | src/mm/pmm.rs:103-106 | a sentinel linked to itself is the empty list |
| FreeLists.PushSpells | src/mm/pmm.rs:108-114 | the four link writes of `push` put the node at the front of the circular list, both ways round |
| FreeLists.UnlinkSpells | src/mm/pmm.rs:116-119 | `remove` takes out exactly the node at any position of the list, both ways round |
| FreeLists.PushFrame | src/mm/pmm.rs:108-114 | pushing on one list changes no other list in the shared link store |
| FreeLists.UnlinkFrame | src/mm/pmm.rs:116-119 | removing from one list changes no other list |
| Pmm.BuddyTestSound | src/mm/pmm.rs:379-383 | in a consistent zone, a BUDDY flag with the right order at the buddy's descriptor is read if and only if the buddy is the head of a block on that free list, however many stale descriptors there are |
| Pmm.LinkedPush | src/mm/pmm.rs:108-114 | pushing an unlisted page keeps all lists of all zones well linked |
| Pmm.LinkedUnlink | src/mm/pmm.rs:116-119 | unlinking a listed page keeps all lists of all zones well linked |
| Zones.AllocKeepsCut | src/mm/pmm.rs:291-339 | allocation from any free block at least as large keeps the zone exactly cut, and hands out a block that was not handed out |
| Zones.FreeKeepsCut | src/mm/pmm.rs:369-404 | a release with all its merges keeps the zone exactly cut, and the block it leaves has no free buddy unless it is maximal |
| Zones.RunsStayCut | src/mm/pmm.rs:254-406 | over every run of allocations and releases, free and handed-out blocks stay aligned, disjoint and exactly cover the managed pages |
| Zones.LiveBlocksDisjoint | src/mm/pmm.rs:254-406 | over every run two blocks handed out never share a page, nor does one share a page with a free block |
| Zones.FreeUndoesAllocIff | src/mm/pmm.rs:254-406 | releasing the block just allocated first re-merges all remainders and then goes on as the release of the whole block would; the old view comes back if and only if the block taken was maximal or had no free buddy |
| Zones.CounterExactIff | src/mm/pmm.rs:405 | the scalar counter, raised by the merged size, grows by the released size if and only if nothing was merged |
| PageAllocator.BuddyAllocator.constructor | src/mm/pmm.rs:450-612 | after `init` each zone manages exactly the usable page frames in its bounds outside the descriptor array, and every such frame is in a zone, all free and of order 0, so that every request of order 1 or more fails until frees merge; each list holds them last offered first |
| PageAllocator.BuddyAllocator.FillRange | src/mm/pmm.rs:574-612 | the page frame loop with its skip over the descriptor array puts each usable frame in front of its zone's order-0 list |
| PageAllocator.BuddyAllocator.Search | src/mm/pmm.rs:258-280 | the search finds the smallest order with a free block in the first zone that has one large enough |
| PageAllocator.BuddyAllocator.PopBlock | src/mm/pmm.rs:289-301 | the first block of the list leaves it and the others keep their order |
| PageAllocator.BuddyAllocator.SplitDown | src/mm/pmm.rs:318-333 | the splitting loop frees exactly the right halves, one of each order down to the one wanted, each in front of its list |
| PageAllocator.BuddyAllocator.AllocPages | src/mm/pmm.rs:254-342 | fails if and only if no zone has a block large enough; otherwise takes the first block on the list of the smallest adequate order in the first zone that has one, frees the rest, lowers the weighted list lengths and the counter by exactly 2^order and leaves other zones, lists and descriptors alone |
| PageAllocator.BuddyAllocator.FindZone | src/mm/pmm.rs:414-421 | the first zone whose bounds contain the page frame, if any |
| PageAllocator.BuddyAllocator.MergeUp | src/mm/pmm.rs:376-396 | the loop over descriptors merges exactly as often as there is a free buddy |
| PageAllocator.BuddyAllocator.FreePages | src/mm/pmm.rs:360-406 | gives back a handed-out block merged with every free buddy upwards, in front of its list, takes the buddies out of theirs, raises the weighted list lengths by exactly 2^order and leaves other zones and descriptors alone; an address outside all zones changes nothing |
| PageAllocator.BuddyAllocator.FreeThenAlloc | src/mm/pmm.rs:254-406 | a release that merges with nothing, into the first zone able to serve its order, and then an allocation of that order: the block released is handed out again, and blocks and list orders are as before |
| PageAllocator.BuddyAllocator.AllocThenFree | src/mm/pmm.rs:254-406 | an allocation and the release of its block: where the block taken was maximal or had no free buddy, blocks and list orders are as before |
| PageCount.WeightCountsFreePages | src/mm/pmm.rs:139-161 | the list lengths weighted by block size are the number of managed pages in free blocks |
| PageCount.HoldsIsWellCut | src/mm/pmm.rs:203-225 | every consistent allocator state is exactly cut in every zone |
| PageTables.IndicesNamePage | src/mm/vmm.rs:76-82 | two addresses lie in the same 4 KiB page if and only if their four table indices agree |
| PageTables.GetEntryIsWalk | src/mm/vmm.rs:167-187 | `get_entry` is the generic walk over four levels |
| PageTables.HangKeepsTree | src/mm/vmm.rs:193-211 | hanging a zeroed fresh frame into an empty entry keeps the tables a tree |
| PageTables.LeafIsFlatUpdate | src/mm/vmm.rs:190-214 | in a tree of tables, writing the last-level entry of an address changes the entry of its page and of no other |
| PageTables.TranslateAddsOffset | src/mm/vmm.rs:266-270 | `translate` of a page mapped to an aligned frame is the frame plus the page offset |
| VirtualMemory.HangKeepsView | src/mm/vmm.rs:193-211 | a new intermediate table changes no entry of any address |
| VirtualMemory.OffTreeKeepsView | src/mm/vmm.rs:212 | a write outside the tables changes no entry of any address |
| VirtualMemory.AlignedLenCoversIff | src/mm/vmm.rs:680 | rounding the length up to pages covers the request if and only if the 64-bit addition does not wrap |
| PageRights.AllowedIff | src/mm/vmm.rs:167-187 | every entry of a walk has the bit for writing, or for user mode, if and only if the entry shown has it and the tables above grant it |
| PageRights.HangKeepsGrants | src/mm/vmm.rs:193-211 | a new intermediate table grants writing and never user mode, and so changes nothing of what tables there grant |
| AddressSpace.MappedAllows | src/mm/vmm.rs:190-214 | after a page is mapped it can be written, or reached from user mode, if and only if its entry has the bit and the tables above granted that before; every other page allows what it allowed |
| AddressSpace.PageTable.AllocZeroed | src/mm/pmm.rs:350-357 | a frame from the supply comes zeroed and is none of the tables |
| AddressSpace.PageTable.EnsureTable | src/mm/vmm.rs:193-196 | an absent entry gets a fresh zeroed table; no address shows a different entry or is granted something else |
| AddressSpace.PageTable.MapPage | src/mm/vmm.rs:190-214 | the page shows frame, flags and PRESENT, every other page is unchanged and the tables stay a tree, if no huge entry is on the way; over a 2 MiB entry nothing is shown; when tables run out nothing is mapped |
| AddressSpace.PageTable.UnmapPage | src/mm/vmm.rs:250-258 | the page shows nothing and every other page is unchanged, unless a huge entry covers it, which leaves memory alone |
| AddressSpace.HugeShows | src/mm/vmm.rs:273-288 | a walk has a last-level slot or meets a huge entry, never both |
| AddressSpace.PageTable.MapAndUnmap | src/mm/vmm.rs:190-258 | mapping a page and then unmapping it, as calls on memory: the page shows nothing and all others what they showed; nothing has changed where nothing was mapped, a huge entry covers the page or frames ran out |
| UserMaps.UserSpace.MapRegion | src/mm/vmm.rs:705-708 | every page of the region is backed by a fresh frame of its own, writable and executable exactly as asked for, user-accessible and with no other flag; pages outside are untouched, also when frames run out part of the way |
| UserMaps.UserSpace.MmapUser | src/mm/vmm.rs:676-710 | regions are page-aligned, follow each other inside the user window without overlap, keep all earlier mappings, and are fully mapped on success: what `get_entry` shows for each page points to a fresh frame and has USER, WRITABLE just when writing was asked for, NO_EXEC just when executing was not, and no other flag; refused only for length zero, a full window, a full area list or no frames, with bump pointer and area list as the code leaves them |
| UserMaps.RegionAllows | src/mm/vmm.rs:190-710 | a page of a region can be written just when that was asked for, where tables grant it; from user mode it can be reached only below tables that were there before and are open to it |
| Gf256.ChainsAreProducts | src/fs/fs_fs/encrypt.rs:97-106 | the chained doublings are multiplication by 2, 3, 9, 11, 13 and 14 in GF(2^8) (section 4.2 of FIPS 197) |
| Gf256.MixInverse | src/fs/fs_fs/encrypt.rs:141-161 | on every column the inverse matrix undoes the MixColumns matrix, both ways |
| Substitution.SboxInverse | src/fs/fs_fs/encrypt.rs:54-71 | the inverse table undoes the S-box on every byte |
| Substitution.InvSboxInverse | src/fs/fs_fs/encrypt.rs:73-90 | the S-box undoes the inverse table on every byte |
| Substitution.SboxIsAffineInverse | src/fs/fs_fs/encrypt.rs:54-71 | the table is the affine image of the field inverse (section 5.1.1 of FIPS 197) |
| BlockCipher.ShiftUndone | src/fs/fs_fs/encrypt.rs:118-139 | the two row shifts undo each other |
| BlockCipher.MixUndone | src/fs/fs_fs/encrypt.rs:141-161 | the two column mixes undo each other on whole states |
| BlockCipher.RoundsUndone | src/fs/fs_fs/encrypt.rs:217-247 | the inverse cipher from round n undoes the first n rounds, by induction over rounds |
| BlockCipher.CipherRoundTrip | src/fs/fs_fs/encrypt.rs:217-247 | for every key schedule and block, decryption undoes encryption and encryption undoes decryption |
| Aes.ShiftRowsInPlace | src/fs/fs_fs/encrypt.rs:118-129 | the row shifts by swaps compute the shifted state |
| Aes.MixColumnsInPlace | src/fs/fs_fs/encrypt.rs:141-150 | the column loop computes the matrix on each column |
| Aes.InvMixColumnsInPlace | src/fs/fs_fs/encrypt.rs:152-161 | the column loop computes the inverse matrix on each column |
| Aes.RconIsTable | src/fs/fs_fs/encrypt.rs:92-93 | the round constants are the powers of x |
| Aes.FromKey | src/fs/fs_fs/encrypt.rs:176-214 | the expansion loop yields the 240 bytes of the schedule of section 5.2 of FIPS 197 |
| StandardExample.StandardVector | src/fs/fs_fs/encrypt.rs:163-247 | the AES-256 example of appendix C.3 of FIPS 197: key schedule and rounds give the ciphertext printed there, and back |
| Aes.Aes256Key.EncryptBlock | src/fs/fs_fs/encrypt.rs:217-231 | the in-place rounds compute the cipher |
| Aes.Aes256Key.DecryptBlock | src/fs/fs_fs/encrypt.rs:234-247 | the in-place rounds compute the inverse cipher |
| XtsMode.DoubleIsTimesX | src/fs/fs_fs/encrypt.rs:401-411 | the byte-carry loop is multiplication by x in GF(2^128) reduced by x^7 + x^2 + x + 1 |
| XtsMode.TweakIsPower | src/fs/fs_fs/encrypt.rs:290-295 | block i is tweaked with the encrypted tweak times x^i |
| XtsMode.XtsBlocks | src/fs/fs_fs/encrypt.rs:290-305 | block i is enciphered between two additions of the encrypted tweak times x^i (sections 5.3 and 5.4 of IEEE Std 1619-2007) |
| XtsMode.XtsRoundTrip | src/fs/fs_fs/encrypt.rs:278-399 | for every key, tweak and buffer of whole blocks, or shorter than a block, decryption undoes encryption and conversely |
| XtsMode.OutsideLastBlock | src/fs/fs_fs/encrypt.rs:306-338 | at every other length, bytes outside the last whole block come back, and the bytes behind it are never enciphered at all |
| XtsPartial.LastBlock | src/fs/fs_fs/encrypt.rs:306-338 | left-over bytes: the first bytes of the last whole block, as many, are enciphered once more, padded with zeros, the others not |
| XtsPartial.PartialBlockFails | src/fs/fs_fs/encrypt.rs:297-338 | for every encrypted tweak and every length above one block that is no whole number of blocks there are a 32-byte key and a buffer that decryption under the expanded key does not bring back |
| XtsPartial.LengthRoundTripsIff | src/fs/fs_fs/encrypt.rs:278-399 | whatever the encrypted tweak: all buffers of a length come back under all 32-byte keys if and only if the length is a whole number of blocks or less than one |
| Xts.GfMul128 | src/fs/fs_fs/encrypt.rs:401-411 | the carry loop in place computes the doubling |
| Xts.AesXts.Run | src/fs/fs_fs/encrypt.rs:278-399 | the loops over blocks and the partial-block branch compute the buffer function for both directions |
| Xts.AesXts.EncryptBuffer | src/fs/fs_fs/encrypt.rs:278-340 | encryption in place is the buffer function under the encrypted tweak |
| Xts.AesXts.DecryptBuffer | src/fs/fs_fs/encrypt.rs:343-399 | decryption in place is the inverse buffer function under the same tweak |
| Xts.AesXts.PageThereAndBack | src/fs/fs_fs/encrypt.rs:493-509 | a buffer of whole blocks encrypted and decrypted in place is unchanged |
| Scheduling.InsertIsFifo | src/sched.rs:193-204 | on a sorted queue the new task goes behind all with at most its vruntime and before all with more, so the queue stays sorted and equals are served first come, first served |
| Scheduling.CallKeepsIff | src/sched.rs:256-291 | every call keeps each task in exactly one place with the matching state and the run queue sorted, if and only if its queue had room, nothing was running at start, and a queued penalty does not pass the next task |
| Scheduling.YieldKeeps | src/sched.rs:412-454 | yielding keeps the invariant if and only if the queue can take the running task back |
| Scheduling.SleepKeeps | src/sched.rs:619-633 | sleeping keeps the invariant if and only if the wait queue has room |
| Scheduling.WakeUpKeeps | src/sched.rs:636-642 | waking keeps the invariant if and only if nobody waits or the run queue has room |
| Scheduling.SpawnKeeps | src/sched.rs:256-280 | spawning keeps the invariant if and only if there is no memory or the run queue has room |
| Scheduling.ExitKeeps | src/sched.rs:601-616 | exiting always keeps the invariant |
| Scheduling.StartKeeps | src/sched.rs:645-654 | starting keeps the invariant if and only if nothing runs yet or nothing is queued |
| Scheduling.PenalizeKeeps | src/sched.rs:513-531 | a penalty keeps the queue sorted if and only if it does not pass the next queued task |
| Scheduling.RunsStayConsistent | src/sched.rs:256-654 | the invariant holds in every state of every run from the empty scheduler with room |
| Dispatching.CallMoves | src/sched.rs:256-654 | for every call and every task: whether it is on the processor, queued, asleep on which tag or gone afterwards, and by how much its vruntime grows |
| Dispatching.SleepMoves | src/sched.rs:619-633 | the running task falls asleep on the tag, and the front of the queue runs |
| Dispatching.ExitMoves | src/sched.rs:601-616 | the running task is gone, and the front of the queue runs |
| Dispatching.StartMoves | src/sched.rs:645-654 | the front of the queue runs |
| Dispatching.YieldMoves | src/sched.rs:412-454 | the front of the queue runs unless the running task was served strictly less; the other one of the two is queued behind all that were served at most as much |
| Dispatching.WakeUpMoves | src/sched.rs:636-642 | the first task asleep on the tag is queued behind all that were served at most as much |
| Dispatching.SpawnMoves | src/sched.rs:256-280 | a task under the next id is queued behind all of vruntime 0; without memory only the id is used up |
| Dispatching.NeverIdle | src/sched.rs:412-654 | over every run no yield, sleep, exit or start leaves the processor idle while something is queued, and whoever runs then was running or queued |
| Dispatching.VruntimeIsService | src/sched.rs:283-531 | over every run the vruntime of a task is the ticks it ran plus the penalties it got while running or queued |
| Fairness.YieldPicksLeast | src/sched.rs:412-454 | yielding hands the processor to a task with the least vruntime and changes nobody's readiness |
| Fairness.BoundedWaiting | src/sched.rs:193-219 | with at least a tick per turn, a ready task with vruntime v runs within 1 + the sum of max(0, v + 1 - vruntime) turns over the other runnable tasks |
| Fairness.WaitsOutDebt | src/sched.rs:283-291 | while a task with at most its vruntime runs, the sum alone bounds the wait |
| Fairness.WakeupsAreFifo | src/sched.rs:41-64 | over every run and for every tag, those who slept are those who were woken, in the same order, followed by those still asleep |
| Fairness.ReschedIff | src/sched.rs:283-300 | over every run the clock counts the ticks, and rescheduling is asked for if and only if something is queued and 50 ticks were used since the last yield |
| RunQueues.CfsRq.Enqueue | src/sched.rs:193-208 | shifting from the back in place is the ordered insertion; a full queue drops the task |
| RunQueues.CfsRq.DequeueMin | src/sched.rs:211-219 | the front task leaves and the others keep their order |
| RunQueues.WaitQueue.Wake | src/sched.rs:48-64 | the first waiter on the tag leaves and the others keep their order |
| SchedCalls.Scheduler.YieldNow | src/sched.rs:412-454 | clears the slice, puts the running task back and switches to the front of the queue: the object ends in the state `Yield` gives, full queues included |
| SchedCalls.Scheduler.SleepOn | src/sched.rs:619-633 | blocks the running task on the tag and switches: the object ends in the state `Sleep` gives, full wait queues included |
| SchedCalls.Scheduler.WakeUp | src/sched.rs:636-642 | moves the first sleeper of the tag to the run queue: the object ends in the state `WakeUp` gives |
| SchedCalls.Scheduler.SpawnThread | src/sched.rs:256-271 | queues a ready task under a new id; without memory only the id is used up |
| SchedCalls.Scheduler.Tick | src/sched.rs:283-291 | clock, slice and the running task's vruntime advance by one; without a running task only the clock |
| SchedCalls.Scheduler.Exit | src/sched.rs:601-616 | the running task becomes a zombie and the front of the queue runs |
| SchedCalls.Scheduler.Start | src/sched.rs:645-654 | the front of the queue runs; an empty queue is reported where the source panics |
| SchedCalls.Scheduler.PenalizeTid | src/sched.rs:503-531 | only the running task and queued tasks are found, and a queued one keeps its place |
| Spsc.StepKeepsInv | src/ipc.rs:106-139 | every atomic step of either side keeps the ring invariant, at every wrap of the counters |
| Spsc.ReceivedIsPrefix | src/ipc.rs:106-139 | in every interleaving what was received is a prefix of what was sent, with at most 64 under way |
| Spsc.WritesAreExclusive | src/fs/ring2_interface.rs:55-82 | in every interleaving the slot being written is not one the consumer may read and holds nothing still to be received |
| Spsc.RefusalsAreJustified | src/ipc.rs:106-132 | a refused send saw 64 under way, and an empty receive saw none |
| Spsc.NeverBlocked | src/ipc.rs:106-139 | a send or receive that has begun can always take its next step, whatever the other side is doing |
| Spsc.StepsRunOut | src/ipc.rs:106-139 | in every interleaving a call ends after at most three more of its own steps, with its message sent, its message received in order, or a refusal; no step of one side touches the other call |
| Spsc.SlotOfWrapped | src/ipc.rs:112 | a counter wrapped at 2^64 still names the right slot, because 64 divides 2^64 |
| Spsc.Channel.Send | src/ipc.rs:106-121 | as a whole call: refuses if and only if 64 are queued, otherwise appends |
| Spsc.Channel.Recv | src/ipc.rs:124-139 | as a whole call: empty if and only if nothing is queued, otherwise takes the oldest |
| ExtentTrees.LookupIsLinear | src/fs/fs_fs/extent.rs:219-286 | in every sound tree the routed search answers what a linear search over all extents answers, in full |
| ExtentTrees.AllExtentsOrdered | src/fs/fs_fs/extent.rs:234-265 | in every sound tree the extents of the whole file are ascending and disjoint |
| ExtentTrees.RouteIsLast | src/fs/fs_fs/extent.rs:268-286 | among ascending keys, repeated ones too, the binary search finds the last key at most the offset, or the first entry |
| ExtentTrees.BmapCounts | src/fs/fs_fs/extent.rs:292-300 | in a sound tree what is left of the extent follows on the device, and with equal lengths the count is just that; otherwise all bytes counted follow if and only if the physical length left is at most the length left, unless the next byte of the file happens to follow too |
| Extents.PlaceBytes | src/fs/fs_fs/extent.rs:391-413 | on any leaf and extent, overlapping ones too: extents that start no later hide the new one, which hides the others |
| Extents.PlaceAddsBytes | src/fs/fs_fs/extent.rs:391-413 | ordered insertion adds exactly the bytes of the new extent |
| Extents.MergeAddsBytesIff | src/fs/fs_fs/extent.rs:360-380 | a left merge adds exactly the new bytes if and only if the extent it continues has equal physical and logical length |
| ExtentInsert.LeafRootGrows | src/fs/fs_fs/extent.rs:356-490 | at a leaf root - merge, insertion or migration to a node - the tree stays sound, and the map grows exactly if and only if a merge fits |
| ExtentInsert.ChildGrows | src/fs/fs_fs/extent.rs:512-516 | insertion below the index keeps the tree sound, and adds exactly its bytes to the map, if and only if the extent does not straddle a separator |
| ExtentInsert.ChildBytes | src/fs/fs_fs/extent.rs:512-516 | on any tree and extent, overlapping or straddling: only what is searched for in the same leaf changes, and how |
| ExtentInsert.RouteUndercut | src/fs/fs_fs/extent.rs:268-286 | with a second key below the first, the binary search answers between the two as it should if and only if it looks at the second entry before the first |
| ExtentInsert.SplitGrows | src/fs/fs_fs/extent.rs:527-603 | a split keeps the tree sound if and only if the extent straddles no separator and the new separator is not below the first key; the map grows exactly also when such a separator is still found |
| ExtentInsert.InsertGrowsIff | src/fs/fs_fs/extent.rs:305-603 | a successful insertion of an unmapped extent leaves exactly the old map and the new bytes if and only if it is exact (merge on equal lengths, no separator straddled, a separator below the first key found), and a sound tree if and only if no separator is straddled and none is below the first key |
| ExtentInsert.FailedSplitLoses | src/fs/fs_fs/extent.rs:553-587 | when a split fails, every byte of that leaf from the separator on is lost; bytes searched for in other leaves are untouched, and those of the extent that belong there are not added |
| ExtentInsert.FailedSplitKeeps | src/fs/fs_fs/extent.rs:553-587 | a split that fails leaves a sound tree all the same, also when the extent straddles a separator |
| ExtentInsert.InsertOutcome | src/fs/fs_fs/extent.rs:313-315 | which error is returned when; a failed insertion changes nothing unless it is a failed split |
| ExtentAnswers.InsertHolds | src/fs/fs_fs/extent.rs:305-587 | on any tree: a successful insertion keeps every extent and adds the new one, or makes one extent longer by it; the physical lengths grow by exactly that of the extent, the file size stays and no other node is written over |
| ExtentAnswers.InsertTakesNodeIff | src/fs/fs_fs/extent.rs:305-587 | an insertion fails for want of room if and only if the leaf it needs is full - seven extents at the root, 85 below the index - and there is no node or the index is full; a node is taken, and a root moved out of the inode, only then |
| ExtentAnswers.InsertAnswers | src/fs/fs_fs/extent.rs:219-587 | after an insertion without a merge a lookup in the new extent answers from it, in full, and every other lookup as before |
| ExtentAnswers.MergeAnswers | src/fs/fs_fs/extent.rs:358-378 | after a merge of extents of equal lengths a lookup in the new extent answers from it, one in the extent it continues reaches further by both lengths, and every other is as before |
| ExtentAnswers.InsertKeepsFlat | src/fs/fs_fs/extent.rs:305-587 | equal lengths and physical lengths stay equal over the insertion of an extent that has them equal |
| ExtentCuts.ShortenedBytes | src/fs/fs_fs/extent.rs:816-844 | truncating a leaf keeps exactly the bytes below the size |
| ExtentCuts.CutBytes | src/fs/fs_fs/extent.rs:747-801 | the pieces left of all extents hold exactly the bytes outside the hole |
| ExtentCuts.PunchedIsSpoilt | src/fs/fs_fs/extent.rs:847-873 | in an ordered leaf the compaction leaves the left piece and then only copies of the right piece |
| ExtentCuts.PunchedBytes | src/fs/fs_fs/extent.rs:847-873 | what the in-place compaction leaves: a hole inside an extent also loses everything behind that extent |
| ExtentCuts.PunchIsExactIff | src/fs/fs_fs/extent.rs:847-873 | the compaction removes exactly the hole if and only if no extent has it strictly inside, or only the last of the leaf |
| ExtentCuts.PunchedIsOrderedIff | src/fs/fs_fs/extent.rs:847-873 | the leaf stays ordered and disjoint in exactly the same cases |
| ExtentCuts.PunchedIsFlatIff | src/fs/fs_fs/extent.rs:764-773 | physical and logical lengths stay equal if and only if no extent is split |
| ExtentShrink.TruncateRestricts | src/fs/fs_fs/extent.rs:626-702 | truncation of leaf roots and of trees of depth one keeps the tree sound and exactly the bytes below the size; on an empty tree even the recorded size stays |
| ExtentShrink.RemoveIsExactIff | src/fs/fs_fs/extent.rs:707-813 | hole removal takes exactly the hole out of the map if and only if in every leaf no extent but the last has it inside, and leaves a sound tree if and only if each leaf also has a spare slot for what it splits |
| ExtentAnswers.TruncateAnswers | src/fs/fs_fs/extent.rs:626-845 | after a truncation every lookup below the new size answers as before, cut off there: the physical length loses what the length loses, flags stay |
| ExtentAnswers.RemoveAnswers | src/fs/fs_fs/extent.rs:707-873 | after a hole that leaves are clean for: in front of it lookups end at the hole with equal lengths; behind it they are as before, but short in physical length by the part in front of the hole where an extent was split |
| ExtentRuns.RunsAreFlat | src/fs/fs_fs/extent.rs:305-813 | over every run of insertions - fitting, refused, or failed for want of room - truncations and removals the tree stays sound and answers as a flat byte map, in which a failed split adds the bytes before the cut and loses those from there to the next separator |
| ExtentAnswers.RunsCountRight | src/fs/fs_fs/extent.rs:219-813 | over every run of insertions of equal lengths, truncations and holes that split no extent, failed insertions among them, the count `bmap` gives is what is left of the extent, and all of it follows on the device |
| ExtentRuns.OpStaysShallow | src/fs/fs_fs/extent.rs:305-813 | every operation whatever - failed, misfitting, on an unsound tree - keeps all children stored and at most 19 of them |
| ExtentRuns.RunsStayShallow | src/fs/fs_fs/extent.rs:305-813 | over every run of any operations from an empty file the index has at most 19 children, all stored |
| NodeBuffers.LeafBuf.InsertSorted | src/fs/fs_fs/extent.rs:606-621 | the shifting loop in the node buffer is the ordered insertion |
| NodeBuffers.LeafBuf.TryMerge | src/fs/fs_fs/extent.rs:360-380 | the first extent that the new one continues is extended in place |
| NodeBuffers.LeafBuf.Truncate | src/fs/fs_fs/extent.rs:816-844 | the compaction in place is the truncation of every extent |
| NodeBuffers.LeafBuf.RemoveRange | src/fs/fs_fs/extent.rs:847-873 | on any leaf whose result fits the buffer, the compaction in place leaves what `Punched` says, overwritten entries included |
| NodeBuffers.LeafBuf.CollectWith | src/fs/fs_fs/extent.rs:534-551 | the copying loop of a split is the ordered insertion |
| NodeBuffers.LeafBuf.MergeWith | src/fs/fs_fs/extent.rs:439-459 | the copying loop of a migration is the ordered insertion |
| NodeBuffers.IndexBuf.FindChildIndex | src/fs/fs_fs/extent.rs:268-286 | the loop of the binary search computes `Route` on any keys, ascending or not |
| NodeBuffers.IndexBuf.InsertAfter | src/fs/fs_fs/extent.rs:588-601 | the index entry is inserted behind the split child |
| ExtentStore.SoundIsStored | src/fs/fs_fs/extent.rs:305-813 | a sound tree fits the buffers, and no insertion or hole is too large for them |
| ExtentStore.ExtentTree.Lookup | src/fs/fs_fs/extent.rs:219-265 | the method answers as the routed search, on unsound trees too |
| ExtentStore.ExtentTree.Bmap | src/fs/fs_fs/extent.rs:292-300 | device byte and physical length left, as the routed search gives them |
| ExtentStore.ExtentTree.Insert | src/fs/fs_fs/extent.rs:305-353 | the method does to the stored nodes what `Insert` does to the tree, also when it fails |
| ExtentStore.ExtentTree.Truncate | src/fs/fs_fs/extent.rs:626-702 | the method truncates the stored nodes as `Truncate` does |
| ExtentStore.ExtentTree.Remove | src/fs/fs_fs/extent.rs:707-813 | the method removes from the stored nodes as `Remove` does |
| FreeSpace.FreeIsUnion | src/fs/fs_fs/space.rs:249-348 | on any list at all - unsorted or overlapping too - freeing makes exactly the bytes of the range free and loses none |
| FreeSpace.FreeAddsTotal | src/fs/fs_fs/space.rs:249-348 | on any list whatever the lengths of the entries grow by exactly the length freed |
| FreeSpace.FreeJoinsPair | src/fs/fs_fs/space.rs:249-348 | a range freed behind two entries that touch becomes one entry with both |
| FreeSpace.FreedIsJoined | src/fs/fs_fs/space.rs:270-338 | on a normal list the merging pass replaces the touched neighbours by one joint range |
| FreeSpace.FreeKeepsNormal | src/fs/fs_fs/space.rs:249-366 | on a sorted, disjoint, non-touching list, freeing a range of which nothing is free keeps the list so, raises `free_bytes` by the length and changes the entry count by one less the neighbours touched |
| SpaceAlloc.BestFit | src/fs/fs_fs/space.rs:151-160 | the search finds the first of the shortest entries that are long enough, or none |
| SpaceAlloc.CarvedIsWithin | src/fs/fs_fs/space.rs:178-240 | on any list, removal leaves nothing of the range free and makes nothing free |
| SpaceAlloc.CarvedIsNonEmpty | src/fs/fs_fs/space.rs:188-240 | removing a range leaves no empty entry |
| SpaceAlloc.AllocIsSafe | src/fs/fs_fs/space.rs:118-142 | what is handed out begins at the first of the shortest entries that are long enough; all of it was free and none of it is afterwards; nothing becomes free; it fails if and only if no entry is long enough |
| SpaceAlloc.SurvivorsAre | src/fs/fs_fs/space.rs:188-240 | the entries that survive the removal are those up to the first one at which more entries have been split than dropped |
| SpaceAlloc.CarvedKeeps | src/fs/fs_fs/space.rs:188-240 | on any list, removal leaves exactly the bytes of the surviving entries outside the range |
| SpaceAlloc.CarvedIsExactIff | src/fs/fs_fs/space.rs:188-240 | on any list, removal takes exactly the range if and only if the entries behind the first overwriting split hold no other byte |
| SpaceAlloc.AllocKeeps | src/fs/fs_fs/space.rs:118-142 | on any list, which bytes are free after an allocation |
| SpaceAlloc.AllocIsExactIff | src/fs/fs_fs/space.rs:118-142 | on any list, allocation takes exactly the bytes handed out if and only if every byte behind the first overwriting split is also in front of it, in the entry allocated from, or handed out |
| SpaceAlloc.AllocIsExact | src/fs/fs_fs/space.rs:118-142 | on a list without partial overlaps that always holds: allocation takes exactly the bytes handed out |
| SpaceAlloc.AllocKeepsLayered | src/fs/fs_fs/space.rs:118-142 | allocation keeps a list without partial overlaps, so along runs of allocations each one is exact |
| SpaceAlloc.AllocFormIff | src/fs/fs_fs/space.rs:132-137 | a normal list stays normal if and only if the fit is exact; otherwise the rest stands in the list twice |
| SpaceAlloc.AllocTotal | src/fs/fs_fs/space.rs:353-366 | after an allocation `free_bytes` counts the rest twice |
| SpaceAlloc.RunsNeverShare | src/fs/fs_fs/space.rs:118-348 | over every run of allocations and frees from any list, ranges handed out share no byte with each other or with the free list |
| SpaceAlloc.RunsConserveIff | src/fs/fs_fs/space.rs:118-348 | over every run from any list, what is free or handed out was free at the start; and every byte free at the start still is one or the other, if and only if no allocation lost something behind an overwriting split |
| SpaceAlloc.RunLeaks | src/fs/fs_fs/space.rs:118-348 | a run of three calls from a normal list - allocate, free, allocate - after which a range of 4096 bytes is neither free nor handed out |
| SpaceAlloc.AlignedCoversIff | src/fs/fs_fs/space.rs:122 | rounding to blocks covers the request if and only if the addition does not wrap |
| SpaceList.FreeSpaceTree.FindBest | src/fs/fs_fs/space.rs:151-160 | the best-so-far loop finds the best fit |
| SpaceList.FreeSpaceTree.RemoveRange | src/fs/fs_fs/space.rs:178-240 | the compaction in place leaves what `Carved` says, as long as that fits the node |
| SpaceList.FreeSpaceTree.FreeRange | src/fs/fs_fs/space.rs:249-348 | the merging pass through the scratch array and the write back compute `Freed` |
| SpaceList.FreeSpaceTree.Alloc | src/fs/fs_fs/space.rs:118-142 | best fit, removal and return of the rest give the list and the offset of `Allocated`; before set-up it answers none |
| SpaceList.FreeSpaceTree.FreeBytes | src/fs/fs_fs/space.rs:353-366 | adds up the lengths of the entries |
| JournalFormat.DecodesBack | src/fs/fs_fs/journal.rs:31-44 | decoding a little-endian number gives it back in the width encoded |
| JournalFormat.SuperFields | src/fs/fs_fs/journal.rs:358-377 | every field of a superblock written - magic, block size, area, sequence number, start, head, tail - reads back, and the rest is zero |
| Journaling.CheckpointSettles | src/fs/fs_fs/journal.rs:336-346 | a checkpoint succeeds if and only if every home lies on the device; then head equals tail, the superblock is clean and the invariant holds |
| Journaling.CheckpointBytes | src/fs/fs_fs/journal.rs:336-346 | byte by byte: outside the log a checkpoint leaves the last staged data and nothing else changed |
| Journaling.StageKeeps | src/fs/fs_fs/journal.rs:235-256 | staging keeps the invariant whether it succeeds, fails or checkpoints, and touches nothing outside the log but homes of the transaction |
| Journaling.StageWritesHomeIff | src/fs/fs_fs/journal.rs:235-256 | staging changes a byte outside the log only if the new head meets the tail or fewer than 8 blocks are free; then every such byte is the last one staged for it |
| Journaling.StagedReachesHome | src/fs/fs_fs/journal.rs:250-253 | in particular a block staged into a nearly full log stands at its home before it is committed |
| Journaling.CommitSettles | src/fs/fs_fs/journal.rs:259-331 | a commit succeeds if and only if every home lies on the device; then every byte outside the log holds the last data staged for it, and the superblock is clean again |
| Journaling.TransactionSettles | src/fs/fs_fs/journal.rs:225-331 | after a whole successful transaction every byte outside the log is the one staged last for it, zero-padded, or unchanged, whether or not the log filled up on the way |
| Journaling.InitIsSound | src/fs/fs_fs/journal.rs:198-220 | formatting yields a sound, clean journal and touches nothing outside it |
| Journaling.RunsStaySound | src/fs/fs_fs/journal.rs:198-377 | between the calls of every run from a fresh journal, head and tail lie in the ring and the superblock on the device is clean |
| JournalRuns.RunsCount | src/fs/fs_fs/journal.rs:198-346 | over every run the sequence number is one more than the commits of something, the head has gone round the ring by one block for each block staged and two for each commit, and the superblock names sequence number and tail |
| JournalRuns.CallCounts | src/fs/fs_fs/journal.rs:225-346 | what each call does to sequence number, head and tail: the tail follows the head just when the staged blocks were copied home |
| JournalRuns.StageLogs | src/fs/fs_fs/journal.rs:235-256 | a staged block stands in the log at the old head, and no other block of the ring changes |
| JournalRuns.NearlyFullIff | src/fs/fs_fs/journal.rs:251-355 | the log counts as nearly full when fewer than eight blocks are free behind the next head, nine when it has come round to the front |
| JournalRuns.InitZeroes | src/fs/fs_fs/journal.rs:208-213 | behind the superblock the first 64 blocks of a new log, or all of a shorter one, are zero, and everything else is as it was |
| JournalRuns.StartsIffReady | src/fs/fs_fs/journal.rs:225-232 | a transaction starts if and only if the journal was set up, with no block staged and nothing committed |
| JournalRuns.OffDevice | src/fs/fs_fs/journal.rs:235-281 | where the block at the head is not on the device, staging and committing fail and write nothing; a commit has used up its block of the ring |
| JournalRuns.CommitBlockOffDevice | src/fs/fs_fs/journal.rs:300-315 | where only the block behind it is missing, a commit fails with the descriptor written and nothing else, and stays open |
| JournalReplay.Scanned | src/fs/fs_fs/journal.rs:400-444 | the scan ends whatever the log holds, by the lexicographic measure of blocks left under the limit and ring distance to the head, and keeps the device size |
| JournalReplay.LoadedInRing | src/fs/fs_fs/journal.rs:158-195 | loading succeeds if and only if the area is large enough and its first block is on the device; it puts head and tail into the ring whatever the superblock says, and leaves a superblock behind |
| JournalRuns.LoadReadsBack | src/fs/fs_fs/journal.rs:158-380 | loading a device whose superblock was just written gives back area, sequence number, head and tail, with no transaction open |
| JournalRuns.RunsLoadBack | src/fs/fs_fs/journal.rs:158-380 | after every run of calls loading gives the sequence number and the tail of the run, and as head that of the last checkpoint |
| JournalRuns.LoadTakesOver | src/fs/fs_fs/journal.rs:158-195 | a position in the superblock is taken over if and only if it lies in the ring and is 1 otherwise; without a superblock a log of sequence number 1 is recorded |
| JournalRuns.ReplayResets | src/fs/fs_fs/journal.rs:446-455 | a replay that has something to do leaves an empty log under the next sequence number, on the device too |
| JournalReplay.ScanEnds | src/fs/fs_fs/journal.rs:401-442 | for a head in the ring some number of rounds ends the loop, whatever the log holds |
| JournalReplay.ScanEndsIff | src/fs/fs_fs/journal.rs:401-442 | whatever the log holds, the loop ends if and only if it ends at once - at the head or at a block that cannot be read - or the head lies in the ring, or the scan never comes to a point where nothing is left to copy |
| JournalReplay.QuietScanEndsIff | src/fs/fs_fs/journal.rs:401-442 | over a log with nothing to copy the loop ends if and only if it ends at once or the head lies in the ring |
| JournalReplay.TameScanEndsIff | src/fs/fs_fs/journal.rs:401-442 | when no descriptor names a home inside the log, the loop from a position in the ring ends if and only if that is the head, or the head lies in the ring, or some block of the ring is a descriptor with tags, which is then copied until more than 10000 blocks were |
| JournalReplay.EndlessReplay | src/fs/fs_fs/journal.rs:158-442 | on a device whose superblock names head 0 `load` corrects the head in memory, but `replay` reads it again and no number of rounds ends the loop |
| JournalReplay.NothingToReplay | src/fs/fs_fs/journal.rs:382-395 | between the calls of every run replay copies nothing and changes nothing |
| JournalReplay.ReplayLeavesClean | src/fs/fs_fs/journal.rs:446-455 | a replay that ends leaves nothing to replay |
| JournalCrash.DescriptorReadsBack | src/fs/fs_fs/journal.rs:271-300 | a descriptor written names its homes in order and marks the last |
| JournalCrash.CommitIsLogged | src/fs/fs_fs/journal.rs:259-331 | a commit is what has been logged up to its superblock, checkpointed |
| JournalCrash.EarlyStopKeepsOld | src/fs/fs_fs/journal.rs:259-331 | a commit of any number of blocks cut off before its first superblock write is undone: load and replay leave every byte outside the log as it was |
| JournalCrash.FullStopKeepsNew | src/fs/fs_fs/journal.rs:259-331 | after a commit that ran to its end, load and replay leave every byte outside the log as staged |
| JournalRecovery.LateStopMisplaces | src/fs/fs_fs/journal.rs:400-444 | between the first superblock write and the last, replay copies to each home the block that many places behind the descriptor - to the first home, the commit block |
| JournalRecovery.CutCommitRecoversIff | src/fs/fs_fs/journal.rs:259-456 | for every stopping point: after load and replay each home holds its old or its new block if and only if the commit stopped before its first superblock write or ran to its end, or the blocks behind the descriptor happen to be such blocks |
| JournalRecovery.OneBlockRecoversIff | src/fs/fs_fs/journal.rs:259-456 | for one block: the home holds the old or the new block if and only if the stop is not between the superblock writes, or the commit block is the old or the new block |
| JournalRecovery.StagedIsCommittable | src/fs/fs_fs/journal.rs:235-256 | one block staged in a clean journal of ten blocks or more meets the conditions of these theorems if and only if the block just logged does not begin like a descriptor |
| JournalRecovery.OpenedIsCommittable | src/fs/fs_fs/journal.rs:225-256 | a transaction of several blocks, in a clean journal that may hold older commits, meets the conditions of these theorems: data that does not begin like a descriptor, homes apart, and older descriptors that name other homes |
| JournalObject.Journal.StartTransaction | src/fs/fs_fs/journal.rs:225-232 | fails before set-up and otherwise empties the transaction |
| JournalObject.Journal.JournalMetadata | src/fs/fs_fs/journal.rs:235-256 | the data goes to the log block at the head, joins the transaction, and a nearly full log is checkpointed; outcome, state and device as specified, failures included |
| JournalObject.Journal.CommitTransaction | src/fs/fs_fs/journal.rs:259-331 | descriptor, commit block, superblock and checkpoint in this order; outcome, state and device as specified at every point of failure |
| JournalObject.Journal.DoCheckpoint | src/fs/fs_fs/journal.rs:336-346 | the copying loop stops at the first failure and leaves what was copied; otherwise the tail moves and the superblock is written |
| JournalObject.Journal.Replay | src/fs/fs_fs/journal.rs:382-456 | the scan with its inner tag loop ends for every log with a head in the ring, and leaves the device and counters that `Replayed` gives |
| JournalObject.Journal.Load | src/fs/fs_fs/journal.rs:158-195 | takes over the superblock, corrects positions off the ring, or writes a superblock; outcome, state and device as specified |
| JournalObject.Journal.Init | src/fs/fs_fs/journal.rs:198-220 | at most 64 blocks are zeroed, failures ignored, and the superblock is written |
| SlabPages.LiveSlotsApart | src/mm/slab.rs:80-103 | live slots lie behind the header and inside their page and share no byte |
| SlabPages.InuseCountsLive | src/mm/slab.rs:120-143 | slots less the length of the free list is the number of live slots of a page |
| SlabPages.TakenKeeps | src/mm/slab.rs:110-130 | allocation hands out a slot that was free, makes live it and no other, and keeps the invariant: a page is full if and only if no slot of it is free |
| SlabPages.ReturnedKeeps | src/mm/slab.rs:133-152 | freeing a live slot makes dead it and no other, and keeps the invariant |
| SlabPages.GrownKeeps | src/mm/slab.rs:69-107 | a new page adds free slots only and keeps the invariant |
| SlabPages.FreeUndoesAlloc | src/mm/slab.rs:110-152 | freeing what was just allocated restores the cache exactly, list orders included |
| SlabPages.AllocTakesPageIff | src/mm/slab.rs:69-130 | an allocation takes a new page if and only if no page has a free slot, and fails if and only if there is none either; no page is given back |
| SlabPages.RunsHoldLive | src/mm/slab.rs:69-171 | over every run the live slots are exactly what callers hold: no slot is handed out while held |
| SlabPages.HasSlotsIff | src/mm/slab.rs:84-85 | a page has room for a slot if and only if the slot is at most a page less the header |
| SlabPages.PageIsFilled | src/mm/slab.rs:84-85 | a page holds as many slots as fit behind its header: one more would pass its end |
| SlabPages.SlotHolds | src/mm/slab.rs:79-84 | a slot holds the object and a link, and is no larger than the larger of the two |
| SlabPages.ClassFits | src/mm/slab.rs:205-212 | a request finds the smallest class if and only if it is at most 4096 bytes, and that class has no slot at all if and only if the request is over 2048 |
| SlabCaches.TakeStep | src/mm/slab.rs:114-128 | allocation on headers and links does what it does to the sets of slots |
| SlabCaches.ReturnStep | src/mm/slab.rs:133-171 | freeing on headers and links, unlinking included, does what it does to the sets of slots |
| SlabCaches.GrowStep | src/mm/slab.rs:75-105 | threading a new page does what growing does to the sets of slots |
| SlabCaches.UserWriteStep | src/mm/slab.rs:93-103 | whoever holds a slot may write anything into it without breaking a free list |
| SlabCaches.SlabCache.Grow | src/mm/slab.rs:69-107 | the threading loop, or nothing when there is no page |
| SlabCaches.SlabCache.Alloc | src/mm/slab.rs:110-130 | takes the first slot of the first partly free page, growing if there is none |
| SlabCaches.SlabCache.Free | src/mm/slab.rs:133-152 | puts the slot first on its page's list; a page that was full goes back to the partly free ones |
| SlabCaches.SlabCache.UnlinkFull | src/mm/slab.rs:155-170 | the walk links around exactly the target |
| SlabCaches.FindClass | src/mm/slab.rs:205-212 | the search through the table finds the smallest class |

## Left out

- Buddy layout: a list node overlays the page descriptor in the source, so that pushing overwrites the flags just set; links and descriptors are kept apart here, as the algorithm assumes.
- Buddy `init`: reading the boot information, placing the descriptor array and all serial output; the memory map and the array's place are parameters.
- PageAllocator.BuddyAllocator.constructor: usable ranges of the memory map must not overlap; a frame in two ranges would be pushed twice.
- PageAllocator.BuddyAllocator.FreePages: a block must be given back at the order it was handed out with, as callers must; freeing anything else is not modelled.
- Page tables: huge-page mapping, `new_kernel`, `new_address_space`, CR3 and TLB instructions and the page-fault handler; memory is a map from table slots to words, and the frames the allocator will hand out are a sequence.
- AddressSpace.PageTable.MapPage: a walk through a 1 GiB entry, or through a 2 MiB entry over memory that holds page tables, is excluded, because the write would land in arbitrary memory.
- PageTables.TranslateAddsOffset: `translate` keeps a 12-bit offset under huge pages too; only 4 KiB pages are stated.
- XtsMode.XtsRoundTrip: lengths above 16 that are no multiple of 16 are left to OutsideLastBlock and LengthRoundTripsIff; a failing buffer is shown under one key, not under every key. Encryption and decryption share one method with a direction.
- XTS: the tweak is given as its 16 little-endian bytes; key derivation and per-file contexts are left out.
- Scheduler: context switches are assignments to `current`; process and user ids, stacks, names, the resched flag and `min_vruntime` are left out; 64-bit overflow of ticks and vruntime, and so saturation, is not modelled.
- Fairness.BoundedWaiting: stated for runs without spawn, sleep, wake or penalty, and a queue with a free entry.
- Message rings: loads, stores and slot copies are single atomic steps in one order; weaker memory orderings are not modelled, and a slot copy is one step because WritesAreExclusive shows it is never contended.
- Extents: node buffers hold entries, not bytes; the inline root is stored as a value although the source writes the inode over its entries; failed device reads and writes, checksums and generations are left out.
- Extent trees deeper than one level: no operation makes one, so recursion into inner children is not modelled.
- ExtentInsert.InsertGrowsIff: an extent that overlaps mapped bytes, which the source does not check for, is covered by PlaceBytes and ChildBytes only.
- ExtentRuns.RunsAreFlat: successful insertions in a run fit, and holes are ones every leaf takes; what the others do to the map is said call by call (InsertGrowsIff, ChildBytes, RemoveIsExactIff, PunchedBytes), and all calls are in RunsStayShallow.
- ExtentStore.ExtentTree.Remove: what the hole leaves has to fit the buffer of 120 slots, behind which the source would write; for sound trees it does (SoundIsStored).
- NodeBuffers.LeafBuf.RemoveRange: the same for one leaf.
- ExtentStore.ExtentTree.Insert: the leaf has to fit the scratch arrays of 85 and 86 extents, past which the source panics; in sound trees it does.
- Free space: only a root that is a leaf; with deeper roots the source does nothing.
- SpaceList.FreeSpaceTree.RemoveRange: a removal that would write behind the 255 slots of the node is excluded.
- SpaceList.FreeSpaceTree.FreeRange: a merge that would pass the scratch array of 120 entries, where the source panics, is excluded.
- SpaceList.FreeSpaceTree.Alloc: both are excluded.
- SpaceAlloc.AllocIsExact: for lists without partial overlaps; AllocIsExactIff is the theorem for any list.
- Journal: checksums and serial output; staged data is at most a block and homes lie outside the log, as the callers' layout gives; tags beyond a block read arbitrary memory, given as a parameter.
- JournalObject.Journal.Replay: the log lies on the device, and a head outside the ring is excluded because the loop need not end then (EndlessReplay).
- JournalRecovery.CutCommitRecoversIff: each block write happens as a whole or not at all, and homes do not overlap. Between tail and head nothing else may pass for a descriptor. With several blocks the scan steps over its end and goes round, and replays the older descriptors left in the ring too; they may name any homes outside the log but those of this commit, since a block under an overlapping home is then decided by whichever descriptor is met last.
- JournalRecovery.LateStopMisplaces: the same.
- Slab: `kmalloc` above 4096 bytes, alignment requests, several caches sharing the page allocator, and frees of anything but a live slot.
- SlabCaches.SlabCache.Grow: a cache of the class of 4096 bytes is excluded, which has no slots (HasSlotsIff, ClassFits).
- SlabCaches.SlabCache.Alloc: the same; its first allocation would read through a null pointer.
- Page and segment caches, HTree and extended attributes, snapshots, the reader-writer lock, plain locks, drivers, the loader and the shell.

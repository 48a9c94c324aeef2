# Verified models of kludgeos

Dafny models of the parts of the kludgeos kernel, user library, file system tools and lwIP
port that keep redundant state or depend on the order of single steps, with proofs of what
they promise. `dafny verify dfyconfig.toml` checks the project.

Each part pairs the code with something simpler: a machine that copies eagerly, a flat map of
addresses, a set of blocks, a byte sequence, a sorted list of deadlines, a flat disk, a
directory tree, a list of packets.

- `CowFork`, `EagerCopy`: copy-on-write fork as a machine over single system calls and single
  byte stores, any environment moving next, and its refinement of eager copying.
- `PageTables`, `AddressSpaces`: page reference counts, the free list and two-level page tables
  below UTOP, and the calls that change them.
- `HeapBlocks`, `HeapMemory`: the lwIP heap, first as a set of blocks and then as a byte array
  with headers inside it.
- `PbufChains`, `PbufRelease`, `PbufPool`, `PbufLengths`, `PbufCopying`, `PbufOps`, `PbufCases`: packet
  buffer chains with reference counts and 16-bit totals.
- `PipeClose`, `PipeRing`, `PipeEof`: end-of-file detection by page counts, the ring of bytes, and
  both together, at single map, unmap, load and store steps.
- `Timeouts`: the list of time differences of lwIP.
- `BlockCache`, `ImageStore`, `DiskImage`, `FileRecord`, `ImageTree`, `ImageBuilder`, `ImageFormat`: the disk image
  builder, which works through its cache of sixteen blocks.
- `ImageReader`, `BlockBitmap`: the reader of the image.
- `DnsTable`, `Slip`, `Scheduler`: the DNS query table, SLIP framing and the scheduler.

Where the code does not do what its comments or its callers expect, the code is modelled as it
is. A lemma gives an input on which the expectation fails, and another gives the condition
under which it holds:

- A reader may be told that a pipe is closed while a fork has mapped a descriptor page but not
  yet the pipe page (`PipeClose.ForkCanFakeEndOfFile`); `PipeClose.ClosedIsRightIff` says exactly
  when the answer is right, and `PipeEof.EofMeans` what that means for the bytes.
- `fsformat` aborts on a tree that fits the disk when directories are nested too deep for its cache
  (`ImageTree.FifteenIsTooDeep`, `ImageFormat.Format`).
- `fsformat` copies names without looking at their length; a name is safe in its record if and only
  if it has fewer than 128 characters (`FileRecord.LongNameIsLost`, `FileRecord.NameReadsBackIff`).
- Chains that are linked from elsewhere lose right totals in `pbuf_cat`, `pbuf_chain`, `pbuf_realloc`
  and `pbuf_dechain` (`PbufCases.CatLosesTotals` and the three after it), under the exact conditions
  given with each call.
- `pbuf_copy` takes an empty end of a chain for a queue of packets or runs off the target
  (`PbufCases.CopySeesQueue`, `PbufCases.CopyRunsOff`); `PbufOps.PbufHeap.PbufCopy` says exactly when.
- `piperead` may report end of file with a byte left in the ring (`PipeRing.EofCanHideAByte`,
  `PipeRing.EofIsCompleteExactly`).
- `pbuf_dechain` returns a released address when a positive multiple of 256 segments was released
  (`PbufCases.DechainLosesCount`, `PbufOps.PbufHeap.PbufDechain`).
- `tot_len` is the length of a chain only below 65536 bytes (`PbufChains.TotLenIsLength`).
- A request above 2^32 - 4 bytes is rounded to the minimum size (`HeapBlocks.RoundedHolds`).
- `alloc_block_num` never hands out the blocks behind the last multiple of 32
  (`BlockBitmap.EveryFreeBlockIsSeenIff`).
- `dns_enqueue` may refuse a query although an entry is completed once its 8-bit counter has
  wrapped (`DnsTable.WrapRefuses`, `DnsTable.RefusedIff`).
- `slipif_input` keeps one byte more than MAX_SIZE and cuts the rest (`Slip.RoundTrip`).

## Model

| member | source | states |
|---|---|---|
| `CowFork.WriteKeeps` | lib/fork.c:12-30 | A store by any environment to any writable page keeps the invariant of the copy-on-write machine (private writable frames are mapped once, the fault handler's scratch page is its own and holds the bytes copied so far, unfinished children do nothing) |
| `CowFork.TakeFaultKeeps` | lib/fork.c:15-24 | The handler's check and its allocation of the scratch page keep that invariant |
| `CowFork.CopyByteKeeps` | lib/fork.c:26 | Each single byte of the handler's copy keeps it, with every other environment free to run in between |
| `CowFork.MapCopyKeeps` | lib/fork.c:28-29 | Mapping the finished copy over the faulting page keeps it: the page becomes writable and its frame is mapped nowhere else outside the scratch page |
| `CowFork.PageAllocKeeps` | kern/syscall.c:165-189 | Mapping a fresh zero page, private or shared, keeps it |
| `CowFork.PageUnmapKeeps` | kern/syscall.c:228-240 | Unmapping a page keeps it |
| `CowFork.MapSharedKeeps` | kern/syscall.c:195-222 | Mapping a shared page a second time keeps it |
| `CowFork.ExoForkKeeps` | lib/fork.c:69-80 | Starting a fork keeps it: the child is new, has no pages and cannot run |
| `CowFork.DupPageKeeps` | lib/fork.c:48-62 | The first system call of duppage keeps it, although a page that was writable is then writable in the parent and mapped in the child |
| `CowFork.SealParentKeeps` | lib/fork.c:55-57 | The second system call of duppage, which takes the parent's own write access away, keeps it |
| `CowFork.ForkFailKeeps` | lib/fork.c:48-57 | Giving a fork up at any page, also between the two system calls of a duppage, keeps it |
| `CowFork.ForkFinishKeeps` | lib/fork.c:102-112 | The exception stack for the child and making it runnable keep it |
| `CowFork.ExitKeeps` | kern/env.c:235-285 | An environment may disappear at any moment, even a parent or a child in the middle of a fork, and the invariant holds |
| `CowFork.StepKeeps` | lib/fork.c:12-115 | Every step keeps it |
| `EagerCopy.StepRefines` | lib/fork.c:12-115 | Every step of the copy-on-write machine is one step of the machine in which each private page has its own bytes and write permission and a page is copied at once; a writable page is copied in the step that takes the parent's write access away; faults and their copies are invisible there |
| `EagerCopy.RunRefines` | lib/fork.c:12-115 | The same over runs of any length |
| `EagerCopy.ForkRefinesEagerCopy` | user/dumbfork.c:25-79 | Main theorem: after any interleaving of stores, faults, forks, failed forks, allocations and exits from a loaded system, every environment that has started has exactly the pages, reads exactly the bytes and may write exactly the pages that eager copying would have given it; so may an unfinished child, except at a page whose duppage is between its two system calls or was given up there |
| `EagerCopy.StartedIsNotLoose` | lib/fork.c:99-112 | Such a half-copied page is never in an environment that has started |
| `EagerCopy.WritableFrameIsExclusive` | lib/fork.c:48-57 | In every reachable state a private frame writable at one page is mapped at no other page, except in a child page whose duppage has not got past its first system call, and that child has not started |
| `EagerCopy.OthersCannotChangePrivatePage` | lib/fork.c:12-115 | No run of steps by other environments, whatever they do, changes a byte that an environment reads from a private page |
| `EagerCopy.StepIsolates` | lib/fork.c:12-115 | One step of another environment leaves a private page mapped and its bytes unchanged |
| `EagerCopy.DupWholeKeeps` | lib/fork.c:41-64 | A duppage without interruption gives the child the page of the parent, with the same sharing and write access, and disturbs nobody |
| `EagerCopy.Machine.Fork` | lib/fork.c:69-115 | The loop of fork without interruption: parent and all others read what they read before and may write what they could; the child reads the parent's bytes at every page below the exception stack, may write and shares what the parent could and did, and has a zeroed writable exception stack of its own |
| `PageTables.AddressSplits` | inc/mmu.h:30-44 | Directory index and table index name a page below UTOP uniquely |
| `PageTables.UnmapKeeps` | kern/pmap.c:418-436 | page_remove keeps the accounting invariant: pp_ref equals the user table entries, user directory entries and environment directories that name the page, and a page counts nothing exactly when it is free or just allocated |
| `PageTables.MapKeeps` | kern/pmap.c:362-382 | page_insert keeps it, also over an existing mapping and when the same page is inserted again at the same place |
| `PageTables.WalkKeeps` | kern/pmap.c:326-354 | pgdir_walk keeps it when it creates a page table, and reaches a word of the table for that address |
| `PageTables.SetupKeeps` | kern/env.c:77-98 | env_setup_vm keeps it: the directory page counts the environment |
| `PageTables.DropTableKeeps` | kern/env.c:269-271 | Dropping an emptied page table keeps it and the table goes back to the free list |
| `PageTables.DropDirKeeps` | kern/env.c:274-278 | Dropping an emptied directory keeps it |
| `PageTables.FreeIsUncounted` | kern/pmap.c:287-310 | Every page on the free list has count zero and is named by no entry of any table or directory |
| `PageTables.UncountedIsUnnamed` | kern/pmap.c:316-321 | A page whose count reaches zero is mapped nowhere |
| `PageTables.WordServesOnePage` | kern/pmap.c:326-354 | Two walks end at the same word exactly when they are for the same page of the same environment |
| `PageTables.MapFlat` | kern/pmap.c:362-382 | On the flat map from environments and addresses to pages with permissions, page_insert enters the page with its permissions and PTE_P at its own address and changes no other |
| `PageTables.UnmapFlat` | kern/pmap.c:418-436 | page_remove clears its own page of that map and no other |
| `PageTables.WalkFlat` | kern/pmap.c:326-354 | Creating a page table changes nothing of that map |
| `AddressSpaces.Kernel.constructor` | kern/pmap.c:247-266 | page_init: all pages free, nothing mapped |
| `AddressSpaces.Kernel.PageAlloc` | kern/pmap.c:287-298 | Takes the head of the free list, or fails exactly when it is empty and changes nothing |
| `AddressSpaces.Kernel.PageFree` | kern/pmap.c:304-310 | Gives an uncounted page back |
| `AddressSpaces.Kernel.PageInsert` | kern/pmap.c:362-382 | Fails exactly when a table is needed and no page is free, and then changes nothing; otherwise the page is mapped with its permissions and no other page of any environment changes; counts stay exact |
| `AddressSpaces.Kernel.PageRemove` | kern/pmap.c:403-436 | Afterwards nothing is mapped there and no other page changes; counts stay exact |
| `AddressSpaces.Kernel.SysPageAlloc` | kern/syscall.c:165-189 | Succeeds exactly when the target is the caller or its child, address and permissions pass the checks and there are pages enough; then the head of the free list is mapped at its address only; otherwise nothing has changed and no page is lost |
| `AddressSpaces.Kernel.SysPageMap` | kern/syscall.c:195-222 | Succeeds exactly when both environments are the caller or its child, the checks pass, a page is mapped at the source, write access is not asked for without being there, and a table can be had; then the page of the source is mapped at the target only; otherwise nothing has changed |
| `AddressSpaces.Kernel.SysPageUnmap` | kern/syscall.c:228-240 | Clears that page only, or fails for an address at or above UTOP, or an environment that is neither the caller nor its child, and changes nothing |
| `AddressSpaces.Kernel.EnvSetupVm` | kern/env.c:77-98 | A new address space maps nothing and no other changes; fails exactly when no page is free |
| `AddressSpaces.Kernel.FreeTable` | kern/env.c:255-271 | One round of env_free: all entries of a table, then the table |
| `AddressSpaces.Kernel.EnvFree` | kern/env.c:235-285 | The address space is gone, counts stay exact, and every other environment maps what it mapped before |
| `AddressSpaces.NoEnvironmentsNoLeak` | kern/env.c:235-285 | Once the last environment is gone every page is on the free list |
| `AddressSpaces.MappedIsUserPage` | kern/pmap.c:403-414 | What page_lookup finds is a counted user page, never a table, a directory or a free page |
| `HeapBlocks.InitialOk` | net/lwip/core/mem.c:260-286 | mem_init makes a well-formed heap |
| `HeapBlocks.FreedKeeps` | net/lwip/core/mem.c:222-340 | mem_free with its joining in both directions keeps the heap well formed (blocks tile the memory, are linked both ways, aligned, of minimal size, no two free neighbours, the lowest-free pointer exact), and the live blocks are exactly the others, unmoved |
| `HeapBlocks.PlugForwardKeeps` | net/lwip/core/mem.c:231-242 | Joining with the next block leaves at most the previous neighbour to join |
| `HeapBlocks.PlugBackwardKeeps` | net/lwip/core/mem.c:244-253 | Joining with the previous block restores the full invariant |
| `HeapBlocks.RoundedHolds` | net/lwip/core/mem.c:493-500 | Rounding in 32 bits leaves room for the request if and only if the request is at most 2^32 - 4; a larger request is rounded to the minimum size |
| `HeapBlocks.TakeKeeps` | net/lwip/core/mem.c:532-572 | Taking a block, split or whole, keeps the shape of the heap, keeps every live block and makes exactly one more |
| `HeapBlocks.ShrunkKeeps` | net/lwip/core/mem.c:355-468 | Shrinking keeps the heap well formed, leaves at least the new size, and moves no other live block |
| `HeapBlocks.ShrunkIntoFree` | net/lwip/core/mem.c:409-434 | Shrinking before a free block moves that block's start down to the new end |
| `HeapBlocks.ShrunkBeforeUsed` | net/lwip/core/mem.c:435-462 | Shrinking before a used block splits off a free block exactly when one of minimal size fits |
| `HeapBlocks.BlockOfByte` | net/lwip/core/mem.c:222-605 | Every byte of the heap lies in exactly one block |
| `HeapBlocks.ChainMeetsEveryBlock` | net/lwip/core/mem.c:518-524 | Following next meets every block once, in address order, and ends at the sentinel |
| `HeapBlocks.NoLiveBlockIsInitial` | net/lwip/core/mem.c:260-286 | A reachable heap without live blocks is the single free block of mem_init |
| `HeapBlocks.FreeAllInAnyOrder` | net/lwip/core/mem.c:295-340 | Freeing all live blocks in any order restores that single free block |
| `Words.Get32Put32` | net/lwip/core/mem.c:152-159 | Header fields stored as little-endian bytes read back, and fields apart do not disturb each other |
| `HeapMemory.LwipHeap.constructor` | net/lwip/core/mem.c:260-286 | mem_init on the byte array |
| `HeapMemory.LwipHeap.StorePayload` | net/lwip/core/pbuf.c:703 | A store inside a live payload, as pbuf_copy makes it, changes no header and no other payload |
| `HeapMemory.LwipHeap.JoinNext` | net/lwip/core/mem.c:231-242 | The header stores of the forward join do what the block model says and touch no live payload |
| `HeapMemory.LwipHeap.JoinPrev` | net/lwip/core/mem.c:244-253 | The same for the backward join |
| `HeapMemory.LwipHeap.MemFree` | net/lwip/core/mem.c:295-340 | mem_free on bytes: frees that block, keeps every payload byte of every block, ignores NULL and addresses outside the heap |
| `HeapMemory.LwipHeap.TakeBlock` | net/lwip/core/mem.c:537-572 | The header stores of mem_malloc on the chosen block, with all live payload bytes unchanged |
| `HeapMemory.LwipHeap.MemMalloc` | net/lwip/core/mem.c:480-605 | Returns NULL exactly when the size is 0 or no block can hold the rounded size, and then changes nothing; otherwise the lowest block that fits, aligned, at least as large as the rounded size, apart from all live blocks, whose bytes are kept |
| `HeapMemory.LwipHeap.AdvanceLowestFree` | net/lwip/core/mem.c:574-583 | The loop that moves the lowest-free pointer ends at the lowest free block or at the sentinel |
| `HeapMemory.LwipHeap.ShrinkBlock` | net/lwip/core/mem.c:409-462 | The header stores of mem_realloc, with the retained prefix and all other payloads unchanged |
| `HeapMemory.LwipHeap.MemRealloc` | net/lwip/core/mem.c:355-468 | Shrinks in place, keeping the retained prefix and every other payload; returns NULL and changes nothing exactly when asked to grow beyond the block or beyond the heap |
| `PbufChains.ChainOf` | net/lwip/core/pbuf.c:457-522 | Every pointer into the store starts a finite chain |
| `PbufChains.TotLenIsLength` | net/lwip/core/pbuf.c:573-595 | The first tot_len of a chain is its length modulo 65536, so it is the length if and only if that is below 65536 |
| `PbufChains.DropLastReference` | net/lwip/core/pbuf.c:490-510 | Releasing a segment whose count falls to zero keeps all counts equal to the number of pointers, with one reference owed to its successor, and right totals right |
| `PbufChains.DropReference` | net/lwip/core/pbuf.c:490-517 | Lowering a count that stays above zero keeps all counts exact and leaves the rest of the chain alone |
| `PbufChains.CatKeeps` | net/lwip/core/pbuf.c:573-595 | Linking two chains with raised totals keeps all counts exact; every tot_len stays equal to len plus the next tot_len if and only if nothing else is linked to the first chain or the second adds no bytes |
| `PbufChains.TrimKeeps` | net/lwip/core/pbuf.c:269-327 | Lowered totals and a cut last segment keep all counts exact, with the tail owed to pbuf_free |
| `PbufChains.TrimTotalled` | net/lwip/core/pbuf.c:269-327 | They keep every total right if and only if nothing else is linked to the part of the chain that is kept |
| `PbufPool.MoreBuilt` | net/lwip/core/pbuf.c:174-203 | Each further pool buffer continues a chain whose totals count the bytes still to come |
| `PbufPool.BuiltKeeps` | net/lwip/core/pbuf.c:143-207 | A finished pool chain joins the store with exact counts and totals and is linked from nowhere else |
| `PbufPool.BuiltFreed` | net/lwip/core/pbuf.c:176-181 | Freeing a half-built chain restores the store |
| `PbufOps.PoolChain` | net/lwip/core/pbuf.c:143-207 | Uses exactly as many buffers as the length needs, or restores the store when the pool runs out |
| `PbufOps.PbufHeap.PbufAllocPool` | net/lwip/core/pbuf.c:143-207 | A pool allocation of any length gives a new chain of exactly that many bytes without an empty end, or changes nothing if and only if the pool has too few buffers |
| `PbufOps.PbufHeap.PbufAllocOne` | net/lwip/core/pbuf.c:208-240 | The other types give one segment of exactly that many bytes with one reference, or change nothing when there is no memory |
| `PbufRelease.ReleaseLoop` | net/lwip/core/pbuf.c:457-522 | The loop of pbuf_free removes exactly the head run of segments with one reference and lowers the count of the segment after it; the returned u8 is the length of that run modulo 256 |
| `PbufRelease.FreeingEnds` | net/lwip/core/pbuf.c:457-522 | Giving up one reference keeps the count of every remaining segment equal to its pointers, and right totals right |
| `PbufOps.PbufHeap.PbufFree` | net/lwip/core/pbuf.c:457-522 | Both of these for any held reference, NULL included |
| `PbufOps.PbufHeap.PbufRef` | net/lwip/core/pbuf.c:551-560 | One more reference, and only that |
| `PbufOps.PbufHeap.RaiseTotals` | net/lwip/core/pbuf.c:580-589 | The loop of pbuf_cat raises every total of the first chain by that of the second, in 16 bits |
| `PbufOps.PbufHeap.PbufCat` | net/lwip/core/pbuf.c:573-595 | The bytes of the result are the concatenation, the second chain's reference moves into the first, no other segment changes and all counts stay exact, for chains shared in any way; all totals stay right if and only if nothing else is linked to the first chain or the second is empty; NULL changes nothing |
| `PbufOps.PbufHeap.PbufChain` | net/lwip/core/pbuf.c:614-620 | Concatenation that keeps the caller's reference: the second chain's head counts one more, and nothing else changes outside the first chain; without a first chain only that count changes; the same condition for the totals |
| `PbufOps.PbufHeap.PbufDechain` | net/lwip/core/pbuf.c:631-659 | Unlinks the first segment, releases the rest as far as nobody else refers to it with all counts exact, and returns a pointer that is still valid if and only if the number of released segments is not a positive multiple of 256; all totals stay right if and only if nothing is linked to that segment or no bytes are cut off |
| `PbufOps.CutKeeps` | net/lwip/core/pbuf.c:638-647 | The unlinking itself, with that condition |
| `PbufCases.DechainLosesCount` | net/lwip/core/pbuf.c:649-658 | A call of pbuf_dechain on a valid chain of 257 segments that releases the whole rest and returns its address |
| `PbufCases.CatLosesTotals` | net/lwip/core/pbuf.c:573-595 | A call of pbuf_cat on a valid store, with a chain whose end another chain shares, after which a total is wrong |
| `PbufCases.ChainLosesTotals` | net/lwip/core/pbuf.c:614-620 | The same for pbuf_chain |
| `PbufCases.ReallocLosesTotals` | net/lwip/core/pbuf.c:269-327 | The same for pbuf_realloc, which cuts the shared segment |
| `PbufCases.DechainLosesTotals` | net/lwip/core/pbuf.c:631-659 | The same for pbuf_dechain of a segment inside a chain |
| `PbufOps.PbufHeap.SkipWhole` | net/lwip/core/pbuf.c:287-304 | The loop of pbuf_realloc, whose signed shrink goes through a wrapped u16 addition, lowers the totals of the segments that stay whole by exactly the bytes removed |
| `PbufOps.PbufHeap.CutTail` | net/lwip/core/pbuf.c:305-327 | The last segment kept is cut and the rest freed |
| `PbufOps.PbufHeap.PbufRealloc` | net/lwip/core/pbuf.c:269-327 | The bytes of the chain become their first new_len, or nothing changes when that is not shorter; no segment outside the chain changes and all counts stay exact, for chains shared in any way; all totals stay right if and only if nothing else is linked to the part that is kept |
| `PbufCopying.Gather` | net/lwip/core/pbuf.c:744-779 | The loop of pbuf_copy_partial collects the slice from offset of the given length, clipped to the chain, for every offset and length |
| `PbufOps.PbufHeap.PbufCopyPartial` | net/lwip/core/pbuf.c:744-779 | The same as the routine's result |
| `PbufCopying.CopyRound` | net/lwip/core/pbuf.c:692-729 | One round of pbuf_copy, over segments of any lengths on both sides, keeps the target equal to the source as far as copied and to itself beyond |
| `PbufCopying.QueuedMeans` | net/lwip/core/pbuf.c:719-728 | The test for a packet queue fires exactly at a segment that is not the last and has no byte behind it |
| `PbufLengths.RoundPasses` | net/lwip/core/pbuf.c:692-729 | What the loop has seen so far, in terms of the lengths of the segments: no queued segment, and where the first round has left the two sides |
| `PbufLengths.SourceQueued` | net/lwip/core/pbuf.c:719-723 | A queued source segment that is seen means lengths that cannot be copied |
| `PbufLengths.TargetQueuedPlain` | net/lwip/core/pbuf.c:724-728 | So does a queued target segment that a source without an empty end runs into |
| `PbufLengths.TargetMissing` | net/lwip/core/pbuf.c:694 | The loop runs off the target in one case only: a source of one segment and an empty one, and a target of one segment of the same length |
| `PbufLengths.CopiedPlain` | net/lwip/core/pbuf.c:729-731 | A source without an empty end that has been copied ends before the queued end of the target |
| `PbufLengths.CopiedOther` | net/lwip/core/pbuf.c:729-731 | A source with an empty end that has been copied is one segment that fits the first of the target, and one empty one |
| `PbufCopying.CopyLoop` | net/lwip/core/pbuf.c:691-731 | For all packets the loop copies the whole source if and only if the lengths of the segments allow it, runs off the target in exactly one case, and otherwise reports a packet queue; what it has copied by then is a prefix of the source |
| `PbufCases.CopyRunsOff` | net/lwip/core/pbuf.c:694 | A call of pbuf_copy on valid packets that goes on without a target segment |
| `PbufCases.CopySeesQueue` | net/lwip/core/pbuf.c:724-728 | A call of pbuf_copy on valid packets, the target large enough, that reports a packet queue |
| `PbufOps.PbufHeap.PbufCopy` | net/lwip/core/pbuf.c:680-732 | ERR_ARG exactly for NULL or a target that is too short, and then no change; otherwise success exactly under that condition on the lengths, and then the target's first bytes become the source and the rest, the links and all other segments stay |
| `PipeClose.SwitchKeeps` | lib/pipe.c:76-89 | A switch to another environment keeps the mapping invariant (a descriptor page of the pipe has its pipe page beside it, except in an unfinished child; counts already read are right while the reader has not been switched out) |
| `PipeClose.OpenOtherKeeps` | lib/fd.c:49-63 | Opening an unrelated descriptor keeps it |
| `PipeClose.CloseKeeps` | lib/pipe.c:192 | The first unmapping of a close, of the descriptor page, keeps it |
| `PipeClose.UnmapDataKeeps` | lib/pipe.c:193 | The second unmapping, of the pipe page, keeps it |
| `PipeClose.DupKeeps` | lib/fd.c:176-180 | The start of dup, with the close of the target descriptor, keeps it |
| `PipeClose.DupDataKeeps` | lib/fd.c:184-193 | dup maps the data page first, which keeps it |
| `PipeClose.DupFdKeeps` | lib/fd.c:195-198 | dup maps the descriptor page last, which keeps it |
| `PipeClose.DupFailKeeps` | lib/fd.c:200-201 | The error path of dup keeps it |
| `PipeClose.DupUnmapKeeps` | lib/fd.c:202-204 | Its second unmapping keeps it |
| `PipeClose.CheckRunsKeeps` | lib/pipe.c:81 | Reading env_runs keeps it |
| `PipeClose.CheckFdRefKeeps` | lib/pipe.c:82 | Reading the count of the descriptor page keeps it |
| `PipeClose.CheckPipeRefKeeps` | lib/pipe.c:82 | Reading the count of the pipe page keeps it |
| `PipeClose.CheckDoneKeeps` | lib/pipe.c:83-88 | The test whether the environment was switched out, and the retry, keep it |
| `PipeClose.ForkKeeps` | lib/fork.c:69-80 | The start of a fork keeps it |
| `PipeClose.ForkFdKeeps` | lib/fork.c:91-101 | Each descriptor page that fork maps into the child keeps it |
| `PipeClose.ForkDataKeeps` | lib/fork.c:91-101 | Each data page that fork maps into the child keeps it, and with the last of them the child is complete |
| `PipeClose.ForkFailKeeps` | lib/fork.c:99-100 | A fork given up keeps it |
| `PipeClose.ExitKeeps` | kern/env.c:235-285 | An exit at any moment keeps it |
| `PipeClose.RunKeeps` | lib/pipe.c:76-89 | The invariant holds after every run |
| `PipeClose.CountsBalance` | lib/pipe.c:82 | The pipe page's count is the counts of the two descriptor pages, plus half-done closes and dups, minus the hidden slots of unfinished children |
| `PipeClose.ClosedIsRightIff` | lib/pipe.c:76-89 | In every run, whatever is half done, an answer of true is right (no environment has a descriptor of the other end) if and only if as many pipe descriptor pages stand without their pipe page as pipe pages stand without a descriptor page |
| `PipeClose.ClosedMeansNoOtherEnd` | lib/pipe.c:76-89 | So it is right whenever no child that a fork has left unfinished holds an end of this pipe without its page |
| `PipeClose.ClosedIsRightAfterForks` | lib/pipe.c:76-89 | In particular whenever all forks of the run have finished |
| `PipeClose.AnswerIsExactWhenBalanced` | lib/pipe.c:76-89 | While those two numbers are equal, the answer is true if and only if no descriptor of the other end exists |
| `PipeClose.HiddenSlotsAreUnfinishedChildren` | lib/fork.c:91-101 | Only a child that fork has left unfinished ever holds a descriptor without its pipe page |
| `PipeClose.ForkCanFakeEndOfFile` | lib/fork.c:91-101 | A concrete run in which a reader is told that the pipe is closed, while a writer has it open, because fork has mapped a descriptor page and not yet the pipe page |
| `PipeRing.StepKeeps` | lib/pipe.c:105-176 | Every single load or store of reader or writer keeps the ring and the stream in agreement |
| `PipeRing.RunKeeps` | lib/pipe.c:105-176 | The same over every run |
| `PipeRing.PipeIsFifo` | lib/pipe.c:105-176 | In every run 0 <= wpos - rpos <= 32 and what the reader has taken is a prefix of what was sent |
| `PipeRing.EofIsCompleteExactly` | lib/pipe.c:119-132 | When piperead returns 0 for a closed pipe everything sent has been read if and only if nothing was published after its emptiness test; a writer gone before that test is enough |
| `PipeRing.EofCanHideAByte` | lib/pipe.c:119-132 | A concrete run in which piperead returns 0 with a byte left in the ring |
| `PipeEof.EndStaysAway` | lib/fd.c:176-204 | Once no descriptor of an end exists, no call brings one back |
| `PipeEof.StepKeeps` | lib/pipe.c:76-176 | Bytes and descriptors together: every step keeps ring, stream and mappings in agreement, and nothing is sent once the writers are gone |
| `PipeEof.EofMeans` | lib/pipe.c:105-141 | In every run, when piperead returns 0 because the pipe is closed: no writer has a descriptor if and only if half-mapped slots balance, for which it is enough that no descriptor page lacks its pipe page; and everything sent has been read if and only if nothing was published after the emptiness test, for which it is enough that the writers were gone by then |
| `PipeEof.EofIsFinal` | lib/pipe.c:105-141 | Under that balance end of file is final: in every continuation nothing more is sent |
| `Timeouts.InsertAlarmKeepsOrder` | net/lwip/core/sys.c:188-235 | In the specification a new deadline goes after all that are not later and before all later ones, and no other moves |
| `Timeouts.InsertIsInsertAlarm` | net/lwip/core/sys.c:188-235 | sys_timeout on differences is that insertion on deadlines, for every list and timeout |
| `Timeouts.RemoveIsRemoveAlarm` | net/lwip/core/sys.c:248-279 | sys_untimeout removes the first deadline of that handler and argument and moves no other |
| `Timeouts.InsertSum` | net/lwip/core/sys.c:188-235 | The sum of the differences becomes the larger of itself and the new timeout, so no difference leaves 32 bits |
| `Timeouts.RemoveSum` | net/lwip/core/sys.c:248-279 | Removal does not raise the sum |
| `Timeouts.DeadlinesSorted` | net/lwip/core/sys.c:188-235 | Every list of differences stands for sorted deadlines |
| `Timeouts.LinkAfter` | net/lwip/core/sys.c:223-233 | The loop of sys_timeout computes the specified list |
| `Timeouts.Unlink` | net/lwip/core/sys.c:263-277 | The loop of sys_untimeout computes the specified list, its 32-bit addition included |
| `Timeouts.SysTimeouts.constructor` | net/lwip/core/sys.c:74-77 | No timeouts |
| `Timeouts.SysTimeouts.SysTimeout` | net/lwip/core/sys.c:188-235 | The list after sys_timeout, unchanged when no entry can be had |
| `Timeouts.SysTimeouts.SysUntimeout` | net/lwip/core/sys.c:248-279 | The list after sys_untimeout |
| `Timeouts.SysTimeouts.FetchPass` | net/lwip/core/sys.c:66-117 | A pass of sys_mbox_fetch runs the first handler exactly when its time has run out and otherwise shortens the first difference by the time waited, not below zero |
| `Timeouts.SetKeeps` | net/lwip/core/sys.c:188-235 | Setting a timeout keeps real due times at or below the deadlines of the list |
| `Timeouts.CancelKeeps` | net/lwip/core/sys.c:248-279 | So does cancelling one |
| `Timeouts.WaitKeeps` | net/lwip/core/sys.c:66-117 | So do waiting, messages and expiry, and none of them moves the deadline of a timeout that stays |
| `Timeouts.HandlersRunInOrderAndNeverEarly` | net/lwip/core/sys.c:66-117 | In every run handlers run in the order of their deadlines, none before it is due, and no difference leaves 32 bits |
| `BlockCache.Refill` | fs/fsformat.c:197-217 | New contents or a changed busy mark for the block of a slot change the view of that block only |
| `BlockCache.Replace` | fs/fsformat.c:182-195 | Writing a victim back and reading another block into its slot changes no block's view |
| `BlockCache.Scan` | fs/fsformat.c:166-180 | Finds the slot of the block, or else an idle slot that no idle slot precedes in use, or reports that all are busy |
| `BlockCache.Cache.constructor` | fs/fsformat.c:62-62 | An empty cache shows the disk |
| `BlockCache.Cache.GetBlk` | fs/fsformat.c:155-211 | Succeeds exactly when the block exists, is not held, and a slot is idle; then the caller holds it, its buffer is the current contents or zeros, every other block is seen and held as before, and a miss replaces an idle slot of least recent use; an abort leaves the disk unchanged |
| `BlockCache.Cache.PutBlk` | fs/fsformat.c:214-217 | Gives the block back and changes no view |
| `BlockCache.Cache.Write` | fs/fsformat.c:266 | A store to a held buffer changes the view of that block only |
| `BlockCache.Cache.FlushDisk` | fs/fsformat.c:444-451 | Afterwards the disk itself equals the view at every block from 1 up, and the view has not changed |
| `DiskImage.FileReadsBack` | fs/fs.c:287-316 | Every byte of every finished file is read back through direct and indirect blocks, its size is exact, and nothing is read beyond it |
| `DiskImage.DirReadsBack` | fs/fs.c:396-425 | The entries of a directory are read back in order and all other places of its blocks are blank |
| `DiskImage.BlocksAreDistinct` | fs/fsformat.c:255-272 | No data or directory block belongs to two files or to two places of one, none is an indirect block, no two files have the same indirect block, and all lie between 2 + nbitblock and nextb |
| `DiskImage.AppendKeeps` | fs/fsformat.c:255-272 | A block from the counter and storeblk, with a new indirect block when the eleventh is stored, keep the image consistent |
| `DiskImage.AppendReads` | fs/fs.c:287-316 | After storeblk, file_block_walk finds the new block at its index and every earlier block of every file where it was |
| `DiskImage.NameKeeps` | fs/fsformat.c:290-309 | Naming a blank place of a directory, with a name that fits its field, keeps the image consistent |
| `FileRecord.CopyStaysInFieldIff` | fs/fsformat.c:308 | The copy of a name into a record leaves the other fields of every record alone if and only if the name has fewer than 128 characters |
| `FileRecord.RecordReadsBack` | inc/fs.h:28-46 | A record whose name fits is read back from its 256 bytes with all its fields |
| `FileRecord.LongNameIsLost` | fs/fsformat.c:308-355 | A name of 128 characters or more is lost when the size that is stored later has another lowest byte |
| `FileRecord.NameReadsBackIff` | fs/fsformat.c:308-355 | A name is read back whatever the other fields are if and only if it has fewer than 128 characters |
| `DiskImage.FinishKeeps` | fs/fsformat.c:355 | Setting the size of a written file keeps the image consistent |
| `ImageStore.IdleIff` | fs/fsformat.c:166-180 | A slot is idle if and only if fewer than sixteen blocks are held |
| `ImageStore.Store.constructor` | fs/fsformat.c:62-62 | An empty cache over a new image file |
| `ImageStore.Store.Hold` | fs/fsformat.c:155-211 | getblk of a block that is not held succeeds if and only if the block exists and fewer than sixteen blocks are held; then one more is held and no block changes |
| `ImageStore.Store.HoldClear` | fs/fsformat.c:155-211 | The same with a cleared buffer: that block is blank and no other changes |
| `ImageStore.Store.Write` | fs/fsformat.c:242-242 | A store to a held block changes that block only and keeps what is held |
| `ImageStore.Store.Put` | fs/fsformat.c:214-217 | putblk gives up that block only and changes no contents |
| `ImageStore.Store.Flush` | fs/fsformat.c:444-451 | flushdisk: the file then holds what the cache showed |
| `ImageTree.TreeReadsBack` | fs/fs.c:396-425 | The reader sees every tree the builder has written |
| `ImageTree.StandsFrame` | fs/fsformat.c:360-416 | What is written later below other directories does not disturb a finished tree |
| `ImageTree.NestingLimit` | fs/fsformat.c:360-416 | A file below n nested directories can be written if and only if, after n + 1 blocks taken and n + 1 slots held, the file itself can |
| `ImageTree.FifteenIsTooDeep` | fs/fsformat.c:177-180 | On 1024 blocks the program aborts for a one-byte file below fifteen nested directories, not below fourteen, and for any file of more than ten blocks below fourteen |
| `ImageBuilder.Builder.constructor` | fs/fsformat.c:246-251 | An image with an empty root directory |
| `ImageBuilder.Builder.Take` | fs/fsformat.c:300-300 | getblk of the next block with a step of the counter aborts exactly when the disk is full or sixteen blocks are held |
| `ImageBuilder.Builder.StoreInNewTable` | fs/fsformat.c:262-267 | storeblk with a new indirect block |
| `ImageBuilder.Builder.StoreInTable` | fs/fsformat.c:265-267 | storeblk with the indirect block of the file, which may have been written back and is then read again |
| `ImageBuilder.Builder.StoreBlk` | fs/fsformat.c:255-272 | Aborts exactly for an index of 1024 or more, when an indirect block is needed and sixteen blocks are held, or when none is left for it; otherwise stores the number in the record or the indirect block, and the blocks held are those held before |
| `ImageBuilder.Builder.Extend` | fs/fsformat.c:300-302 | storeblk of a block just taken, and the size of a directory, keep the image consistent |
| `ImageBuilder.FirstBlank` | fs/fsformat.c:290-295 | The scan for a blank place finds the first one |
| `ImageBuilder.BlankIsFree` | fs/fsformat.c:290-295 | The first blank place of the last block is the first unused place of the whole directory |
| `ImageBuilder.Builder.HoldLast` | fs/fsformat.c:281-286 | The last block of a directory is found through the record or the indirect block; aborts exactly when too many blocks are held for that |
| `ImageBuilder.Builder.FindBlank` | fs/fsformat.c:280-297 | allocfile looks in the last block only, and that is enough: it finds the first unused place of the whole directory exactly when there is one |
| `ImageBuilder.Builder.AddBlock` | fs/fsformat.c:299-305 | A full directory gets one more block, blank and held; the exact condition for an abort |
| `ImageBuilder.Builder.AllocFile` | fs/fsformat.c:275-310 | For a name that fits its field: the new entry is the next one of its directory, no other record changes, and its block stays held; aborts exactly when a block is needed and cannot be had or one or two more blocks cannot be held |
| `ImageBuilder.Builder.ReadBlock` | fs/fsformat.c:338-339 | The next block, without a step of the counter, holds what was read and zeros |
| `ImageBuilder.Builder.WriteBlock` | fs/fsformat.c:338-351 | One round of writefile's loop; the exact condition for an abort, with the blocks held |
| `ImageBuilder.Builder.WriteBlocks` | fs/fsformat.c:336-354 | The loop of writefile stores exactly the bytes of the file, and aborts exactly when it has more than 1024 blocks, too few are left, counting the block in which the end of a file that fills its last block is noticed, or the data block and an indirect block cannot be held |
| `ImageBuilder.Builder.WriteFile` | fs/fsformat.c:313-357 | For a name that fits its field: the directory has one more entry, whose name, size and bytes are those given, nothing else changes and no block stays held; the exact condition for an abort |
| `ImageBuilder.Builder.WriteSubdirectory` | fs/fsformat.c:360-416 | A directory with everything below it; the block with its record is held all the while and released at the end |
| `ImageBuilder.Builder.WriteEntry` | fs/fsformat.c:396-411 | A file, or a directory with everything below it, becomes the next entry of its directory; aborts exactly when the blocks it needs, counted over the whole subtree, cannot be had or, at some depth, cannot be held |
| `ImageBuilder.Builder.WriteDirectory` | fs/fsformat.c:396-416 | Writing a list of files and directories, recursively, adds them to the directory in order as trees that stand there, and changes nothing else; the exact condition for an abort and the exact number of blocks used |
| `ImageFormat.OpenDisk` | fs/fsformat.c:220-246 | All bits of the bitmap blocks are set; aborts exactly when the disk has no room for them |
| `ImageFormat.ClearUsed` | fs/fsformat.c:424-428 | The bits of the blocks handed out are cleared, across bitmap blocks, and no other block changes |
| `ImageFormat.ClearRest` | fs/fsformat.c:431-436 | The bits beyond the disk are cleared in the last bitmap block |
| `ImageFormat.WriteSuper` | fs/fsformat.c:438-440 | The super block holds the number of blocks and the root record |
| `ImageFormat.ReadsMore` | fs/fs.c:396-425 | What the reader sees of a tree does not depend on further blocks |
| `ImageFormat.Populate` | fs/fsformat.c:478-485 | The tree below the root, with the bitmap blocks left alone |
| `ImageFormat.Finish` | fs/fsformat.c:487-488 | After finishfs and flushdisk the file itself holds the tree, the super block and the bitmap |
| `ImageFormat.Format` | fs/fsformat.c:462-491 | Main theorem: from an empty file to the image on disk through the cache, for names that fit their field, the program succeeds exactly for 3 to 1024 blocks and a tree whose blocks, counted over the whole tree, fit the disk and can be held at every depth; then reading the image from its super block gives exactly the tree that was written, with all names, sizes and bytes, in order, and the bitmap marks exactly the blocks from nextb on as free |
| `ImageReader.DirLookup` | fs/fs.c:396-425 | dir_lookup finds the first entry of that name, and fails exactly when there is none |
| `ImageReader.JoinedComponents` | fs/fs.c:489-498 | A path made of names is taken apart into the same names |
| `ImageReader.FollowFinds` | fs/fs.c:489-518 | A path leads to a file if and only if its names lead to it in the tree and none has 128 characters or more |
| `ImageReader.FollowMisses` | fs/fs.c:503-511 | The directory and name for file_create are given if and only if all names but the last lead to a directory that has no entry of the last name |
| `ImageReader.WalkPath` | fs/fs.c:474-519 | For every string, slashes anywhere: the file found, its directory, a bad path, or the directory and last name of a missing file are those of the tree |
| `BlockBitmap.Bitmap.constructor` | fs/fs.c:233-252 | The bitmap of an image: a block is in use exactly when its bit is clear |
| `BlockBitmap.MountFormatted` | fs/fs.c:233-252 | On an image from fsformat exactly the blocks below nextb are in use, among them those that read_bitmap asserts to be |
| `BlockBitmap.Bitmap.BlockIsFree` | fs/fs.c:143-150 | True exactly for a block of the disk that is not in use |
| `BlockBitmap.Bitmap.FreeBlock` | fs/fs.c:154-160 | Frees that block only, also one beyond the disk, which stays without effect; block 0 is refused |
| `BlockBitmap.Bitmap.AllocBlockNum` | fs/fs.c:167-188 | Hands out the lowest free block, never one in use, and fails if and only if all blocks below the last multiple of 32 are in use |
| `BlockBitmap.EveryFreeBlockIsSeenIff` | fs/fs.c:173-179 | So a failure means a full disk, for every set of blocks in use, if and only if nblocks is a multiple of 32 |
| `BlockBitmap.LastBlockIsOverlooked` | fs/fs.c:173-179 | A call of alloc_block_num that fails on a disk of 33 blocks whose last block is free |
| `DnsTable.CheckKeeps` | net/lwip/core/dns.c:478-545 | Checking an entry keeps the table consistent: an entry is pending or its callback has been called once |
| `DnsTable.CheckShrinks` | net/lwip/core/dns.c:498-526 | A check of a pending entry that does not call back brings its last tick nearer by at least one, through the growing pauses and the change of server |
| `DnsTable.EntryFires` | net/lwip/core/dns.c:507-516 | A callback is the first and last of its query |
| `DnsTable.EnqueueKeeps` | net/lwip/core/dns.c:713-764 | An accepted query takes an entry that is not pending, and all other pending queries stay |
| `DnsTable.TickKeeps` | net/lwip/core/dns.c:551-558 | A tick over the whole table keeps it consistent |
| `DnsTable.ReceiveKeeps` | net/lwip/core/dns.c:566-702 | So does a response, good, bad or for an unknown identifier |
| `DnsTable.StepNears` | net/lwip/core/dns.c:478-764 | No event removes a pending query without calling back, and every tick brings the callback nearer |
| `DnsTable.EveryCallbackOnce` | net/lwip/core/dns.c:478-764 | In every run from the empty table each accepted query has called back exactly once, or is pending and has not |
| `DnsTable.CallbackInTime` | net/lwip/core/dns.c:478-545 | An accepted query has called back exactly once in every run with 7 ticks for each server |
| `DnsTable.Choose` | net/lwip/core/dns.c:719-747 | The search takes the first unused entry, or else the completed entry of greatest computed age |
| `DnsTable.RefusedIff` | net/lwip/core/dns.c:736-747 | A query is refused if and only if no entry is unused, entry 0 is pending and the 8-bit counter has wrapped since every completed entry was made |
| `DnsTable.OldestMakesRoom` | net/lwip/core/dns.c:719-747 | Until the counter wraps a query is refused only if all entries are pending, and the oldest completed entry makes room |
| `DnsTable.WrapRefuses` | net/lwip/core/dns.c:727-741 | A run of calls from the empty table, through a wrap of the counter, that ends with a query refused although an entry is completed |
| `DnsTable.Resolver.constructor` | net/lwip/core/dns.c:217-244 | The empty table |
| `DnsTable.Resolver.CheckEntry` | net/lwip/core/dns.c:478-545 | One check of one entry, with its callback |
| `DnsTable.Resolver.CheckEntries` | net/lwip/core/dns.c:551-558 | Every entry is checked once, in order |
| `DnsTable.Resolver.Recv` | net/lwip/core/dns.c:566-702 | The response goes to the entry named by the low 8 bits of its identifier if that is pending, and to none otherwise |
| `DnsTable.Resolver.Enqueue` | net/lwip/core/dns.c:713-764 | ERR_MEM exactly when no entry can be taken, and then nothing changes; otherwise the query is pending in the entry taken, at the first server with all its retries left |
| `Slip.EscapedReads` | net/lwip/netif/slipif.c:152-205 | Escaped bytes are read back as the bytes they stand for, up to the buffer limit |
| `Slip.PacketReads` | net/lwip/netif/slipif.c:87-108 | Whatever was on the line before, a packet arrives whole and by itself, because it starts with an END |
| `Slip.AllRead` | net/lwip/netif/slipif.c:136-206 | For any list of packets, what arrives is the list without its empty packets, each cut to 1501 bytes |
| `Slip.RoundTrip` | net/lwip/netif/slipif.c:75-209 | Decoding the concatenated encodings gives the same packets in order if and only if each has from 1 to 1501 bytes |
| `Slip.Output` | net/lwip/netif/slipif.c:75-110 | slipif_output sends the encoding of the bytes of the whole chain, however they are divided into segments |
| `Slip.ByteStored` | net/lwip/netif/slipif.c:187-204 | A byte stored in the current segment is the next byte of the packet, across segment boundaries |
| `Slip.FullPoolDecodes` | net/lwip/netif/slipif.c:164-206 | While pbuf_alloc never refuses, what slipif_input delivers is what the protocol says |
| `Slip.Input` | net/lwip/netif/slipif.c:121-209 | slipif_input delivers the next packet of the stream and stops behind it, for pool buffers of any segment lengths and any refusals of pbuf_alloc, each of which drops one byte |
| `Scheduler.VisitIsDistance` | kern/sched.c:19-20 | One scan visits every slot from 1 to NENV - 1 exactly once |
| `Scheduler.Sched.constructor` | kern/sched.c:15-15 | The first scan starts behind slot 0 |
| `Scheduler.Sched.Yield` | kern/sched.c:12-34 | Runs the nearest runnable slot in cyclic order, and slot 0 only when no other is runnable |
| `Scheduler.DistanceShrinks` | kern/sched.c:19-27 | A runnable environment that is passed over is strictly nearer at the next call |
| `Scheduler.ChosenInTime` | kern/sched.c:12-34 | An environment that is runnable at every call is chosen within NENV - 1 calls |

## Left out

- Several processors, spin locks and TLB flushes: every model runs on one processor.
- Page permissions other than writable, copy-on-write and shared in the fork model; user code is taken not to touch the handler's scratch page PFTEMP itself, which keeps aliasing the last copied page.
- EagerCopy.Machine.Fork: the copied page of PFTEMP, when the parent has one, is part of the child as in the code, but no claim is made about later use of it.
- The kernel half of address spaces and the boot-time pages, whose counts are not valid.
- PageTables.MapKeeps, PageTables.UnmapKeeps: pp_ref is not bounded to 32 bits.
- The pool variant of the lwIP heap, its statistics and its semaphore.
- CowFork.MapSharedKeeps: a private page mapped at a second address is excluded: copy-on-write gives the two addresses pages of their own, so they are no longer the same page.
- PbufOps.PbufHeap.PbufCopy: chains of 65536 bytes and more are excluded, whose totals no longer tell their lengths, and chains with a segment in common.
- PbufOps.PbufHeap.CutTail: mem_realloc of a PBUF_RAM segment is left to `HeapMemory.LwipHeap.MemRealloc`; it moves no byte that is kept.
- PbufOps.PbufHeap.PbufCat: the two chains have no segment in common, or the result would be a ring.
- pbuf_header, pbuf_take and the queueing functions would only add easy members.
- PipeClose.RunKeeps: one pipe; creating it is taken as done before the run starts, and spawn is not modelled.
- PipeRing.PipeIsFifo: positions are unbounded, so fewer than 2^31 bytes are assumed, and there is one reader and one writer.
- Timeouts.HandlersRunInOrderAndNeverEarly: the clock of a wait is taken to report no more than the time that passed; semaphores with timeouts are not modelled.
- BlockCache.Cache.GetBlk: nothing is claimed of the contents of block 0, which stands for an empty slot and which no caller asks for; byte order conversion is the identity on a little-endian host; the counter of uses is unbounded.
- ImageFormat.Format: a block is its interpretation as records, numbers, bits or bytes; names that do not fit their field are excluded (`ImageTree.AllNamed`), since the code then overwrites other fields of the record; which host files are visited, in which order, is an input, and reading them is taken to succeed.
- BlockBitmap.Bitmap.AllocBlockNum: a 32-bit word is modelled as its 32 bits.
- The file server's own changes of an image, where freed blocks stay mapped.
- DnsTable.Resolver.Recv: what a response says is an input; callbacks are taken not to call back into the resolver.
- ImageReader.WalkPath: reading a block is taken to succeed.
- Scheduler.Sched.Yield: the wait for slot 0 to become runnable is not modelled.
- IPC, the shell, the file server's requests, TCP, DHCP, devices and boot code.

# Memory management of the smough kernel: a verified model

The kernel's memory management stack and three self-contained data structures,
modelled in Dafny with the branches, constants, error codes and quirks of the C
code, and proofs of what they keep over whole runs. Where the code does not
meet its purpose on all inputs, the exact condition under which it does is
proved instead.

| modules | what they model |
|---|---|
| `ChunkLists`, `HeapRuns`, `HeapMemory`, `KernelHeap` | kernel heap: chunk lists as values, runs of `kmalloc`/`kfree`, 25-byte chunk headers in byte memory, and a class that changes that memory step by step |
| `FrameLists`, `FrameRuns`, `ClaimedRanges`, `PageFrames` | page frame allocator: free lists and page array as values, their runs, the cutting of claimed ranges, and a class over linked block nodes and the page array |
| `PageTables`, `KernelTables`, `TableWays`, `TableCounts`, `Mmu`, `DirectoryCopy`, `DirectoryRuns`, `EntryWords` | four-level translation (section 4.5 of the Intel SDM volume 3A), the boot tables and what all directories share of them, the way to a page and the tables that it lacks, mapping a page, building a directory and duplicating one with copy-on-write leaves, how many frames these calls take, their runs, the entries as 64-bit words |
| `Slab`, `Words`, `Bitmap`, `Bootmem` | slab caches that share one pool of pages, bitmap over 32-bit words, boot allocator |
| `HashFunctions`, `HashMap`, `NumberMap` | hash map with bounded linear probing that stores only hashes: insert, lookup and removal |
| `InitrdImage`, `MkInitrd`, `ImageWriter`, `Initramfs`, `InitrdRoundTrip`, `GroupedArguments`, `InodeNumbers` | initrd image: its layout, the writer's table, the writer, the kernel's reader, the round trip, the argument lists for which it holds, and the inode numbers |
| `KernelUtil`, `Pipes` | memory and string loops, the pipe |
| `Bytes`, `Arithmetic`, `Common` | little-endian integers in byte memory; powers of two and quotients; shared constants and `Option` |

A class models each object whose fields the C code updates. The `ensures` of its
methods tie the new state to a function or a step relation on values, and the
run theorems are about those.

Results that differ from what the code or its comments suggest:

- `__claim_range` advances `start` by a growing amount (src/mm/page.c:112). It
  tiles its range exactly when the range has at most 2^16 pages
  (`ClaimedRanges.ClaimIsExact`); block k of the largest order starts k(k+1)/2
  blocks behind the first (`ClaimedRanges.CutExactly`).
- A directory's `size` in the image leaves out the directory header, although the
  comment says that it is included (toolchain/util/mkinitrd.c:67-69, 218). The
  root directory's offsets use one directory size for all steps and are right
  exactly when all directories but the last have that size (`MkInitrd.RootExactly`).
  For arguments that are grouped by directory, without repetitions and within the
  limits of the format, this means that all directories but the last take the same
  number of bytes, which holds for at most two (`GroupedArguments.EvenExactly`,
  `GroupedArguments.TwoDirsAreEven`).
- A written file whose next four bytes read as the directory magic is found as a
  directory (`InitrdRoundTrip.RoundTrip`). A file of 2^31 bytes or more is found, and
  can be sought in, but every read of it fails with -E2BIG or -ESPIPE, because its
  size is an int (`GroupedArguments.ReadBack`, `GroupedArguments.LongFile`).
- `mkinitrd` reads the directory before its first exactly when the arguments, stored
  rightly so far, leave their first directory and end in it
  (`GroupedArguments.WritableExactly`).
- A page from the slab pool gives entries inside it exactly for items of at most
  2048 bytes, a fresh block exactly for items of at most 2 bytes
  (`Slab.DrawIsSound`).
- The boot allocator claims and marks one page more than it should. A block stays
  inside the claimed memory exactly when the pages used so far, one more for every
  block of more than one page, leave room for it (`Bootmem.InsideExactly`).
- `mm_claim_range` claims all pages of a range behind the DMA zone, unless the range
  begins in the normal zone and reaches its end: then it claims none
  (`PageFrames.NormalExactly`).
- A partial pipe read duplicates data; the pipe is a queue exactly when every read
  drains it (`Pipes.FifoExactly`).
- `kstrncmp` also compares the character at index `len` (`KernelUtil.Kstrncmp`).
- `hm_remove` hides every item whose probe passes the removed slot
  (`HashMap.RemoveThenGet`), and dereferences a null item exactly when a slot without
  item is probed before one with the key (`HashMap.RemoveExactly`). Also,
  `hm_hash_str` has systematic collisions (`HashFunctions.HashStrCollisions`).
- `amd64_duplicate_dir` falls through from its branch for 2 MB pages to the loop over
  the leaves, which then runs over the page itself: every word of the page's first
  4 KB that has bit 0 set is rewritten, and the copy gets a table of those words. The
  duplicate is a copy exactly when no 2 MB page is reached below slot 511
  (`DirectoryCopy.CopyExactly`); `DirectoryRuns.LargeExample` is a directory of which
  it is none. In runs of the calls modelled no directory ever reaches one, so there
  every duplicate is a copy (`DirectoryRuns.EveryDuplicateIsCopy`).
- The boot directory has its PDPT in slots 0 and 511, and all other directories have
  the same one in slot 511. A page mapped in one of these slots appears at the same
  place in all of them, so at two addresses of the boot directory, and nowhere else
  (`Mmu.PageDirectories.MapPage`, `KernelTables.AliasExactly`); `amd64_map_page` of the
  local APIC is an example (`DirectoryRuns.BootAlias`).
- `amd64_map_page_to_dir` does not look for large pages. An address inside a 2 MB page
  is not mapped; instead a word of that page is overwritten by the new entry
  (`Mmu.PageDirectories.MapPage`). After boot this is so for all addresses below 2 GB
  of the boot directory (`KernelTables.BootLarge`).
- The guard of `bm_set_bit` compares a word index with the length in bits: of the bits
  from `len` on it lets those below `32 * (len + 1)` pass (`Bitmap.Bits.BmSetBit`).

## Model

| member | source | states |
|---|---|---|
| HeapRuns.ReachableHeaps | src/mm/heap.c:104-167 | over every run of `kmalloc`/`kfree` from `mm_heap_init`, each arena's chunks tile it with no two free neighbours, arenas stay apart, and the live chunks are exactly the outstanding requests, each at least as large as requested and larger by less than a header plus 8 |
| HeapRuns.OutstandingDisjoint | src/mm/heap.c:138-167 | in every reachable heap the payloads of two outstanding allocations do not meet, and a header lies between them |
| HeapRuns.AllReturned | src/mm/heap.c:104-136 | once everything is given back, each arena is a single free chunk of its whole size |
| HeapRuns.FreeUndoesMalloc | src/mm/heap.c:138-167 | `kfree(kmalloc(n))` restores the chunk lists exactly, up to one all-free arena when one had to be added |
| ChunkLists.TakeKeeps | src/mm/heap.c:58-80 | taking a chunk, split or whole, keeps the tiling and adds one live payload of the right size, leaving the others where they were |
| ChunkLists.ReleaseShape | src/mm/heap.c:104-136 | the two recursive merges join a freed chunk with exactly its free neighbours, one on each side at most |
| ChunkLists.ReleaseUndoesTake | src/mm/heap.c:58-136 | freeing a chunk just taken gives back the same chunk list |
| ChunkLists.FreeKeeps | src/mm/heap.c:161-167 | freeing one live chunk keeps the heap valid and removes exactly that payload from the live ones |
| KernelHeap.Heap.constructor | src/mm/heap.c:190-209 | the first arena is one free chunk whose header stands in memory |
| KernelHeap.Heap.AllocArena | src/mm/heap.c:34-56 | a new arena is appended as one free chunk; no live payload changes |
| KernelHeap.Heap.SplitBlock | src/mm/heap.c:58-80 | the header writes of a split leave memory that represents the split chunk list, and no live payload changes |
| KernelHeap.Heap.FindFree | src/mm/heap.c:82-102 | following the next pointers finds the first chunk that fits in the first arena that has one, and splits it |
| KernelHeap.Heap.JoinBlocks | src/mm/heap.c:111-117 | joining two neighbours in memory represents the joined chunk list, and no live payload changes |
| KernelHeap.Heap.MergeBlocksPrev | src/mm/heap.c:104-120 | the recursive merge to the left terminates and yields the merged chunk list and its head |
| KernelHeap.Heap.MergeBlocksNext | src/mm/heap.c:122-136 | the recursive merge to the right terminates and yields the merged chunk list |
| KernelHeap.Heap.KMalloc | src/mm/heap.c:138-151 | is a step of the run model; takes the first spare block exactly when no chunk fits, and fails exactly when then no arena can help; changes no byte of a live payload |
| KernelHeap.Heap.KFree | src/mm/heap.c:161-167 | is a step of the run model; changes no byte of a payload that stays live, and neither arenas nor spare blocks |
| HeapMemory.Rewritten | src/mm/heap.c:66-77 | if a write touches only the headers of replaced chunks and the next one, memory represents the new chunk list |
| HeapMemory.ClientWrite | src/mm/heap.c:149-150 | a client that writes only its own payload cannot damage a header |
| FrameRuns.ReachableStates | src/mm/page.c:360-379 | over every run of allocations and matching frees, every managed page lies in exactly one free or outstanding block, the union never changes, a page has type FREE or IN_USE accordingly, and the page array gives order and boundaries of outstanding blocks |
| FrameRuns.NoOverlap | src/mm/page.c:360-379 | in such a state no page is in two free blocks or in a free and an outstanding one |
| FrameRuns.OutDisjoint | src/mm/page.c:360-367 | two outstanding blocks have no page in common |
| FrameRuns.AllocIsFree | src/mm/page.c:195-216 | every page of an allocated block was managed and held by nobody |
| FrameLists.AllocFails | src/mm/page.c:195-215 | an allocation fails exactly when every order from the requested one up is empty |
| FrameLists.AllocShape | src/mm/page.c:135-212 | otherwise it uses the first block of the smallest non-empty order, adds exactly one piece per order below it, and returns the last piece; pieces and result tile the block |
| FrameLists.PushThenAlloc | src/mm/page.c:55-131 | a block put into the list of an order is the next one taken from it, and taking it restores the lists |
| FrameLists.CountedOnce | src/mm/page.c:55-72 | if no page is counted twice, a page lies at one place in one free list only |
| ClaimedRanges.ClaimIsExact | src/mm/page.c:94-118 | the emitted blocks tile the whole pages of the range if and only if there are at most 2^16 of them |
| ClaimedRanges.CutTiles | src/mm/page.c:104-117 | below 2^16 pages the blocks are contiguous, cover the range, and have strictly descending orders |
| ClaimedRanges.CutBits | src/mm/page.c:104-117 | the orders emitted are exactly the set bits of the page count |
| ClaimedRanges.CutExactly | src/mm/page.c:94-118 | for every length: as many blocks of the largest order as fit come first, block k of them k(k+1)/2 blocks behind the first, and the rest is tiled with descending orders behind the last |
| ClaimedRanges.CutAtLeast | src/mm/page.c:104-117 | a block of at least order o is emitted exactly when the range has 2^o pages |
| PageFrames.ListRemove | src/lib/list.c:16-22 | unlinks a node from its neighbours and changes nothing else |
| PageFrames.ListAppend | src/lib/list.c:32-41 | links a node behind another and in front of its old successor |
| PageFrames.ZoneOfNormalBlock | src/mm/page.c:41-53 | a block is put back into the normal zone exactly when it starts in it and ends strictly below its end |
| PageFrames.Frames.GetFreeEntry | src/mm/page.c:121-131 | removes the first node of an order, keeping all lists well-formed and doubly linked |
| PageFrames.Frames.SplitBlock | src/mm/page.c:135-162 | the node updates of a split are the split of the free lists |
| PageFrames.Frames.AllocMem | src/mm/page.c:168-216 | refines the allocation on free lists, error cases included |
| PageFrames.Frames.ZoneAddBlock | src/mm/page.c:55-72 | a fresh node with the block's bounds becomes the first of its order |
| PageFrames.Frames.PageArrayAddBlock | src/mm/page.c:74-92 | marks exactly the block's pages, the first of them as first |
| PageFrames.Frames.BlockAlloc | src/mm/page.c:360-367 | keeps the invariant of the run model with the block outstanding; fails exactly when the lists have none |
| PageFrames.Frames.BlockFree | src/mm/page.c:369-379 | for pages of the normal zone, keeps the invariant of the run model with the block given back; finds no zone, and changes nothing, exactly when the block reaches the end of the zone |
| PageFrames.Frames.ClaimRange | src/mm/page.c:94-118 | calls back for exactly the blocks of the cut, in order, on the lists or on the page array |
| PageFrames.NormalExactly | src/mm/page.c:313-348 | all pages of a range behind the DMA zone are claimed if and only if it does not begin in the normal zone and reach its end; otherwise none is |
| PageFrames.Frames.ZonesInit | src/mm/page.c:254-348 | returns a block exactly when some usable range has 2^order pages in the normal zone; then the block holds the page array, the type of every page is that of its range, and the invariant of the run model holds on exactly those pages of usable ranges that the split claims for the normal zone |
| PageTables.PathIsPage | src/arch/amd64/mmu.c:57-60 | two addresses take the same path exactly when bits 12 to 47 agree |
| Mmu.PageDirectories.MapPage | src/arch/amd64/mmu.c:52-80 | for every directory, the boot directory included: succeeds if and only if the pool has as many frames as tables are missing on the way, and takes exactly those from its front; exactly the entries on the way change, by the added flags, and the new tables hold nothing else; where no large page is in the way, the page and its aliases in all directories, and no others, end in the new leaf; where a 2 MB page is, exactly one word of that page is overwritten and no page is mapped |
| TableWays.Makes | src/arch/amd64/mmu.c:52-80 | the function of the memory that mapping computes is this closed form: every entry of every table, old or new, is given by whether it is on the way, and the new tables are those that were missing |
| TableCounts.MissingAfter | src/arch/amd64/mmu.c:62-76 | after a page was mapped in a directory, the way to another one lacks only what it lacked before and does not share |
| Mmu.PageDirectories.MapKernelPage | src/arch/amd64/mmu.c:82-85 | the same for the directory in cr3, which is the boot directory |
| Mmu.PageDirectories.OverwriteWord | src/arch/amd64/mmu.c:74-79 | on a 2 MB entry the program adds the flags and stores the leaf in the page itself |
| KernelTables.AliasExactly | src/arch/amd64/mmu.c:29-38 | two addresses of two directories end in the same slot of the same table exactly when they are the same page of the same directory, or differ only in slots that lead to the boot PDPT |
| KernelTables.AliasPages | src/arch/amd64/mmu.c:57-60 | aliases by page number: equal, or equal in the low 27 bits with both slots leading to the boot PDPT |
| Mmu.PageDirectories.constructor | src/arch/amd64/mmu.c:23-42 | the boot tables, and with them the invariant that all other methods keep: which tables are shared, and by which slots |
| KernelTables.BootMaps | src/arch/amd64/mmu.c:29-38 | the boot directory maps the first 2 GB to themselves and again at the end of the address space |
| KernelTables.BootLarge | src/arch/amd64/mmu.c:33-38 | in the boot directory a large page is in the way of every address below 2 GB |
| DirectoryRuns.BootAlias | src/arch/amd64/mmu.c:82-85 | after boot, mapping the page of the local APIC takes two frames, succeeds exactly when there are two, and makes the page appear at two addresses of the boot directory |
| Mmu.PageDirectories.EnsureTable | src/arch/amd64/mmu.c:62-66 | where no large page is in the slot, the next table is present and reached through the entry; it fails exactly when there was none and the pool is empty; no other entry changes and no translation but for the added flags |
| Mmu.PageDirectories.AllocInto | src/arch/amd64/mmu.c:44-50 | stores an entry for a fresh zeroed table |
| PageTables.GrowWalk | src/arch/amd64/mmu.c:44-50 | hanging an empty table into an absent slot changes no translation, although tables of the kernel may be shared |
| PageTables.LeafWalk | src/arch/amd64/mmu.c:79 | storing a leaf changes exactly the translations that end in its slot |
| DirectoryCopy.Duplicate | src/arch/amd64/mmu.c:128-195 | succeeds if and only if the pool has the frames for the new directory and for one table per table of the original below slot 511, and takes exactly those; for each slot below 511 that the original has, 4 KB pages translate in both directories to the original's frames, copy-on-write and not writable, and parts of 2 MB pages in the copy to what the words of the page said; in the other slots the copy has the devices only; it is a copy if and only if no 2 MB page is reached; exactly the data pages reached are rewritten; slot 511 and other directories keep their translations |
| TableCounts.TablesArePaths | src/arch/amd64/mmu.c:141-174 | the tables of a copy are as many as there are paths of up to three indices that end in a present entry of the original, a 2 MB page counting as one |
| DirectoryCopy.CopyExactly | src/arch/amd64/mmu.c:128-195 | what was duplicated is a copy if and only if the original reaches no 2 MB page below slot 511 |
| DirectoryCopy.CopyTables | src/arch/amd64/mmu.c:137-189 | the nested loops do this at every level, changing only tables below the two it copies between |
| DirectoryCopy.CopyLeaf | src/arch/amd64/mmu.c:178-182 | a present leaf is rewritten in the original and copied, keeping its frame |
| DirectoryCopy.CopyLarge | src/arch/amd64/mmu.c:165-183 | the branch for a 2 MB page with its fall-through: the original keeps the page copy-on-write, the copy gets a table made of the page's words |
| DirectoryCopy.CopyWords | src/arch/amd64/mmu.c:177-183 | the innermost loop over a data page rewrites exactly its words with bit 0 set, and stores them in the table |
| DirectoryCopy.NoSharedTables | src/arch/amd64/mmu.c:141-174 | below slot 511 the walks of two directories visit no table in common |
| DirectoryCopy.LargePageIsLost | src/arch/amd64/mmu.c:165-183 | the copy never has the 2 MB page; one of its parts is at the right frame exactly when the word of that index in the page was a present entry for that frame |
| EntryWords.PackedEntry | src/arch/amd64/mmu.c:79 | a page address combined with flags by bitwise or reads as the entry of that frame with those flags |
| EntryWords.FlagsAdded | src/arch/amd64/mmu.c:62-76 | combining a word with flags by bitwise or keeps the frame and adds exactly those flags |
| EntryWords.FrameAddress | src/arch/amd64/mmu.c:66-78 | a word with its low twelve bits masked out is the address of the entry's frame |
| EntryWords.PresentTest | src/arch/amd64/mmu.c:62-74 | masking a word with `MM_PRESENT` is non-zero exactly when the entry is present |
| EntryWords.CowWord | src/arch/amd64/mmu.c:179-181 | resetting the flags of a leaf and setting the new ones makes the copy-on-write entry of the same frame |
| EntryWords.CowLargeWord | src/arch/amd64/mmu.c:167-168 | the same for a 2 MB page, which stays one |
| EntryWords.OneWord | src/arch/amd64/mmu.c:44-80 | words that read as the same entry are the same word |
| DirectoryCopy.BuildDir | src/arch/amd64/mmu.c:87-126 | a fresh directory that below slot 511 maps exactly the devices, each at its own address, in slot 511 translates as the boot directory, and changes no other translation; succeeds if and only if the pool has a frame for the directory and one for each different beginning, of one to three indices, of the devices' paths, and takes exactly those |
| DirectoryRuns.ReachableDirectories | src/arch/amd64/mmu.c:23-195 | over every run of mappings, builds and duplications from the boot tables on, no directory has a large page below slot 511 |
| DirectoryRuns.EveryDuplicateIsCopy | src/arch/amd64/mmu.c:128-195 | so every duplicate in every run is a copy, duplicates of duplicates included |
| DirectoryRuns.Perform | src/arch/amd64/mmu.c:52-195 | each of the calls is a step of the run model, can be made in every state that a run reaches, succeeds exactly when the pool has the frames it needs, takes exactly those from its front, and loses none |
| DirectoryRuns.LargeExample | src/arch/amd64/mmu.c:165-183 | a directory with a 2 MB page that may be duplicated, but never to a copy |
| Slab.DrawIsSound | src/mm/slab.c:36-61 | the entries counted for a new source fit its memory if and only if the item size is at most 2048 for a pooled page, at most 2 for a fresh block |
| Slab.SoundMeansInside | src/mm/slab.c:118-130 | the count of a source is sound exactly when every entry it will issue lies in its block |
| Slab.ReachableCaches | src/mm/slab.c:94-152 | over every run, live, recycled and unissued entries are disjoint and lie inside their blocks, so a freed entry is reissued once per free |
| Slab.LiveDisjoint | src/mm/slab.c:94-134 | live entries share no byte, and none is waiting to be issued again |
| Slab.ReachableSystems | src/mm/slab.c:34-152 | the same invariant over every run of calls on any number of caches that draw from one pool |
| Slab.CachesDisjoint | src/mm/slab.c:34-152 | live entries of two such caches share no byte |
| Slab.ObjectsDisjoint | src/mm/slab.c:63-134 | live objects of the size that was asked for share no byte and lie inside one block of the cache |
| Slab.AllObjectsDisjoint | src/mm/slab.c:34-152 | the same for objects of two caches with their own sizes |
| Slab.AllocExactly | src/mm/slab.c:94-134 | an allocation fails exactly when recycled entries, source, pool and spare blocks are all used up, and serves in this order |
| Slab.SourceIssues | src/mm/slab.c:108-130 | a source issues its entries one item apart from its next one on, and is given up with the last |
| Slab.DrawExactly | src/mm/slab.c:34-61 | a new source begins at its memory, with one entry less than fit for a pooled page and with a page of entries for a fresh block |
| Slab.FreedNext | src/mm/slab.c:94-152 | a freed entry is the next one issued, or the one after it when others were recycled before |
| Slab.SlabCache.constructor | src/mm/slab.c:63-79 | the item size is the least even number that is not below the size asked for, and the first source is drawn |
| Slab.SlabCache.AllocEntry | src/mm/slab.c:94-134 | refines the allocation on values: recycled entries first, then the source, then a new source |
| Slab.SlabCache.FreeEntry | src/mm/slab.c:136-152 | the entry goes behind the first recycled one |
| Words.XorTwice | src/lib/hashmap.c:35-37 | exclusive or with the same word twice gives the word back |
| Words.XorBit | src/lib/hashmap.c:35-37 | bit k of an exclusive or is set exactly when it is set in one word and not in the other |
| Bitmap.Bits.BmSetRange | src/lib/bitmap.c:47-58 | sets exactly the bits n to k, both included, or is refused and changes nothing |
| Bitmap.Bits.BmUnsetRange | src/lib/bitmap.c:69-80 | clears exactly the bits n to k, or is refused and changes nothing |
| Bitmap.Bits.BmSetBit | src/lib/bitmap.c:35-45 | sets exactly bit n of the bitmap; passes without a bit of it exactly when n is at least len and below 32 * (len + 1), and is refused from there on |
| Bitmap.Bits.BmFindFirst | src/lib/bitmap.c:90-102 | the least bit with the value in [n, k], -ENOENT exactly when there is none |
| Bitmap.Bits.BmFindFirstRange | src/lib/bitmap.c:114-139 | the least start of a run of len equal bits inside [n, k], -ENOENT exactly when there is none or len is 0 |
| Bootmem.BlocksDisjoint | src/mm/bootmem.c:85-108 | over every run, two blocks returned from one range have no page in common |
| Bootmem.BlockPages | src/mm/bootmem.c:88-104 | every page of a returned block was clear before and is set after |
| Bootmem.TakenForGood | src/mm/bootmem.c:85-108 | over every run, no set page becomes clear |
| Bootmem.InsideExactly | src/mm/bootmem.c:62-104 | over every run on a claimed range, a block starts at the pages used so far, counted from the requests, so it stays inside the claimed pages if and only if those and its own fit; one page more is still granted |
| Bootmem.GrantedExactly | src/mm/bootmem.c:85-108 | with one range, a request is granted if and only if that many pages and one more are left, and, but for single pages, a bit of the bitmap behind them |
| Bootmem.FoundExactly | src/mm/bootmem.c:85-108 | with any ranges, a block is found exactly when some range has a long enough run and the first run of the first such range is a single page or does not end the bitmap |
| Bootmem.SearchExactly | src/mm/bootmem.c:85-108 | the block is then the first run of the first range that has one |
| Bootmem.LongRangeUnused | src/mm/bootmem.c:61-64 | a range at least as long as the bitmap is claimed without effect: nothing is found in it |
| Bootmem.ClaimsExactly | src/mm/bootmem.c:45-65 | exactly the first five usable entries of the map with a page or more are claimed, in their order, each from the next page boundary on |
| Bootmem.BootMemory.constructor | src/mm/bootmem.c:67-83 | full bitmaps, of which the first five usable ranges with a page or more are claimed |
| Bootmem.BootMemory.AllocBlock | src/mm/bootmem.c:85-108 | refines the search on values, including the call that fails when the marking runs past the bitmap |
| Bootmem.BootMemory.ClaimRange | src/mm/bootmem.c:45-65 | appends the range with its rounded start and its cleared bits, or changes nothing |
| HashMap.GetIsEarliest | src/lib/hashmap.c:105-197 | over any sequence of inserts, a lookup returns the element of the earliest insert with the same hash that found room, none if there is none |
| HashMap.RefusedWhenFull | src/lib/hashmap.c:105-139 | an insert is refused for space exactly when all 12 probed slots are occupied |
| HashMap.InsertExactly | src/lib/hashmap.c:124-147 | an insert is refused with -EINVAL exactly for UINT32_MAX, succeeds exactly for the others when one of the probed slots is not occupied, and then fills the first such slot and no other |
| HashMap.SmallMapProbesAll | src/lib/hashmap.c:107-119 | with at most 12 slots probing wraps around: an insert is refused exactly when the whole map is full |
| HashMap.RemoveExactly | src/lib/hashmap.c:149-171 | in every map, `hm_remove` clears the first item with the key that is probed, occupied or not, and dereferences a null item exactly when a slot without item comes first; it clears what a lookup finds, and without removed items nothing else |
| HashMap.RemoveAfterInserts | src/lib/hashmap.c:105-171 | after any sequence of inserts, `hm_remove` clears an item exactly when one of them with the same hash was successful |
| HashMap.RemoveThenGet | src/lib/hashmap.c:149-197 | in every map, afterwards that key is not found, and every other lookup is as before, or fails exactly when the slot was on the way to its item |
| HashMap.RemoveHides | src/lib/hashmap.c:173-197 | an occupied slot that is cleared hides an item found so far exactly when it was on the way to it |
| HashMap.Map.HmRemove | src/lib/hashmap.c:149-171 | refines the removal on slots, with -EINVAL and -ENOENT changing nothing, and reports the null dereference |
| HashMap.Map.HmInsert | src/lib/hashmap.c:124-147 | refines the insert on slots, with -EINVAL and -ENOSPC changing nothing |
| HashMap.Map.HmGet | src/lib/hashmap.c:173-197 | refines the lookup on slots |
| HashFunctions.HashNumBijective | src/lib/hashmap.c:28-40 | equal hashes mean equal numbers, and exactly one number is refused |
| HashFunctions.HashOfNum | src/lib/hashmap.c:28-40 | every 32-bit word is the hash of a number |
| HashFunctions.MixBit | src/lib/hashmap.c:35-37 | `(x >> 16) ^ x` joins each bit below 16 with the one 16 places above and keeps the others |
| HashFunctions.HashStrIs | src/lib/hashmap.c:43-56 | the hash of a string is the number with its signed characters as digits in base 33 behind the digit 5381, in 32 bits |
| HashFunctions.HashStrCollisions | src/lib/hashmap.c:43-56 | raising the last character but one by one and lowering the last by 33 keeps the hash |
| NumberMap.GetByNumber | src/lib/hashmap.c:28-197 | with numeric keys a lookup finds the element first stored under that number where there was room: numbers are never confused |
| KernelUtil.Kmemmove | src/kernel/util.c:139-152 | for every overlap the destination receives the old source and nothing else changes |
| KernelUtil.Kmemcpy | src/kernel/util.c:15-24 | the destination window equals the source window, the rest is unchanged |
| KernelUtil.Kmemset | src/kernel/util.c:26-34 | every byte of the window is the value cut to a byte, the rest is unchanged |
| KernelUtil.Kstrlen | src/kernel/util.c:5-13 | finds the first zero byte |
| KernelUtil.Kstrncmp | src/kernel/util.c:60-72 | 0 exactly when the strings are equal or agree on len + 1 characters; -1 exactly when they first differ below len with the smaller signed character on the left |
| KernelUtil.KstrcmpS | src/kernel/util.c:133-137 | 0 exactly for equal strings |
| Pipes.FifoExactly | src/fs/pipe.c:26-68 | over every run, bytes read and still held are the bytes written in order if and only if every read drained the pipe; and then after a read nothing is held, so all bytes written have been returned |
| Pipes.ReadDelivers | src/fs/pipe.c:36-47 | a read of n bytes returns the first n bytes held, or all when there are less, and then nothing is left |
| Pipes.WriteAppends | src/fs/pipe.c:52-68 | a write appends its bytes to those held, or none when they do not fit |
| Pipes.PartialRead | src/fs/pipe.c:39-47 | a partial read of n bytes leaves the rest of the data followed by a second copy of its last n bytes |
| Pipes.DrainsExactly | src/fs/pipe.c:39-47 | a read takes its bytes out of the pipe exactly when it asks for at least the fill level |
| Pipes.Pipe.Read | src/fs/pipe.c:26-50 | refines the read on values, -EINVAL changing nothing; the pointer stays within the buffer |
| Pipes.Pipe.Write | src/fs/pipe.c:52-68 | refines the write on values; a refused write changes nothing |
| MkInitrd.AcceptsExactly | toolchain/util/mkinitrd.c:174-260 | a correct table stays correct if and only if the directory has room, the name is new, nothing overflows, and `cur_offset` is the offset of that directory's last file |
| MkInitrd.BuildKeeps | toolchain/util/mkinitrd.c:174-260 | the table built from usable arguments holds exactly the given files, each at its recorded offset |
| MkInitrd.OffsetExactly | toolchain/util/mkinitrd.c:242-254 | the shared `cur_offset` yields the right offset exactly when it is that of the directory's last file |
| MkInitrd.RootExactly | toolchain/util/mkinitrd.c:327-334 | the root offsets are right if and only if all directories but the last have the size counted |
| MkInitrd.TwoDirectories | toolchain/util/mkinitrd.c:327-334 | usable arguments grouped by directory with at most two directories give right root offsets |
| MkInitrd.SizeIsFiles | toolchain/util/mkinitrd.c:268-344 | the size in the disk header counts the files with their headers, but no header of a directory |
| GroupedArguments.OrdinaryUsable | toolchain/util/mkinitrd.c:174-260 | arguments that are grouped by directory, name no file twice, and keep to five directories, five files each and 32-bit sizes are usable |
| GroupedArguments.EvenExactly | toolchain/util/mkinitrd.c:327-334 | for them the root offsets are right if and only if the files of all directories but the last take the same number of bytes |
| GroupedArguments.TwoDirsAreEven | toolchain/util/mkinitrd.c:327-334 | which holds for at most two directories |
| ImageWriter.ParsePath | toolchain/util/mkinitrd.c:107-115 | the directory is what stands before the second slash and the name what stands behind the last |
| ImageWriter.SplitsPath | toolchain/util/mkinitrd.c:107-115 | the path of a file in a directory splits into the two |
| ImageWriter.Mkinitrd.AddFile | toolchain/util/mkinitrd.c:174-260 | one turn of the argument loop is the step on the table; it aborts exactly on a sixth directory |
| ImageWriter.Mkinitrd.SaveFile | toolchain/util/mkinitrd.c:208-260 | size and count are raised before the checks for a duplicate and a sixth file |
| ImageWriter.Mkinitrd.WriteImage | toolchain/util/mkinitrd.c:268-344 | the bytes written are the image of the table |
| InitrdImage.DirHeaderReads | src/fs/initramfs.c:48-64 | the header fields and the name read back from memory as written |
| InitrdImage.FileAt | src/fs/initramfs.c:66-74 | in the image each file lies behind the files before it |
| Initramfs.FindEntry | src/fs/initramfs.c:207-229 | the search loop returns the first entry that matches, trying the directory magic first |
| Initramfs.InodeLookup | src/fs/initramfs.c:186-272 | refines the lookup on values; both ways to place the inode give the same address |
| Initramfs.OpenFile.Seek | src/fs/file.c:57-69 | succeeds exactly when the new position lies within the file, otherwise -ESPIPE and no move |
| Initramfs.OpenFile.Read | src/fs/initramfs.c:103-126 | reads exactly the bytes at the position, or nothing on -EINVAL, -ESPIPE and -E2BIG; -E2BIG moves the position |
| InitrdRoundTrip.RoundTrip | src/fs/initramfs.c:186-272 | every file given to the writer is found under its directory and name with its bytes and its size as an int, as a file if and only if the four bytes behind its header are not the directory magic |
| InitrdRoundTrip.NeverWritten | src/fs/initramfs.c:207-232 | a name that was never written is not found: -ENOENT |
| GroupedArguments.OrdinaryRoundTrip | src/fs/initramfs.c:186-272 | the round trip for such a list of arguments with even directories, conditions that can be read off the arguments |
| GroupedArguments.ReadBack | src/fs/initramfs.c:103-272 | looking such a file up, opening and reading it: a read of n bytes at p delivers the bytes [p, p + n) of the content if and only if the content has them and less than 2^31 bytes; otherwise -ESPIPE or -E2BIG and the buffer is left alone |
| GroupedArguments.LongFile | src/fs/initramfs.c:122-123 | an ordinary list of one file of 2^31 bytes or more, of which no read succeeds |
| GroupedArguments.WritableExactly | toolchain/util/mkinitrd.c:327-334 | the writer reads before its table exactly when the arguments leave their first directory and end in it |
| GroupedArguments.OrdinaryNeverWritten | src/fs/initramfs.c:207-232 | and what is not in the list is not found |
| InodeNumbers.Numbers | toolchain/util/mkinitrd.c:101-105 | files and directories are numbered from 2 on in the order of the arguments, a directory just before its first file |
| InodeNumbers.NumbersDistinct | toolchain/util/mkinitrd.c:101-105 | no number is given to two of them |
| InodeNumbers.OrdinaryNumbers | src/fs/initramfs.c:207-240 | a lookup in the image of an ordinary list returns the number of the directory, and of the file |
| InitrdRoundTrip.ReadsContent | src/fs/initramfs.c:115-125 | a read of n bytes at p delivers the bytes [p, p + n) of the content |
| InitrdRoundTrip.InitFinds | src/fs/initramfs.c:309-341 | the reader accepts every image that the writer writes |

## Left out

- PageTables: page-table memory holds entries, each a frame and a set of flags; `EntryWords` proves the bit operations on single 64-bit words equal to the operations on entries, but the words are not laid out in byte memory.
- Duplicate: the original is a directory made by `amd64_build_dir`, not the boot directory, whose slot 0 leads to the kernel's tables; there is no 1 GB page in it, and the frame of a 2 MB page is a page of data, not a page table.
- MapPage: no 1 GB page is in the way, and the frame of a 2 MB page is a page of data, not a page table; the pool is the list of frames that `mm_block_alloc` will give out, and the panic of the program is a result.
- EnsureTable: a 2 MB page in the slot is the business of `OverwriteWord`.
- BuildDir: the PCI, APIC and frame buffer addresses are parameters, below slot 511.
- ZonesInit: the memory map is a parameter with disjoint page-aligned ranges, each within the proved bound, and a page array that ends with the normal zone; the lists of the DMA and high zones are not modelled.
- BlockFree: requires a page-aligned block of the normal zone that is outstanding with this order.
- ZoneAddBlock: `page_count`, which is never lowered and has no law, and the failing allocation of a node.
- `mm_heap_preinit`: its arena is larger than the block behind it.
- The list of arenas, the slab lists and the arena cache are sequences; the block nodes of the page allocator are linked objects.
- KMalloc: `__alloc_arena` calls the slab cache, which may call `kmalloc` again; that reentrancy is not modelled.
- AllocArena: the same call; the list node that it allocates is not part of the heap.
- SlabCache: `used_list` and `mm_cache_destroy`, which nothing else reads; entries are addresses.
- AllocEntry: zeroing the entry and linking used blocks are not modelled.
- BmSetBit: what the program overwrites when a bit outside passes is not modelled, only that it does.
- ClaimRange: the multiboot2 map is a parameter.
- HmRemove: what the program does with a null item is not modelled, only when; `hm_dealloc_hashmap` is not modelled.
- HmInsert: requires `len < cap`, which the code asserts.
- WriteImage: requires that every counted file was stored, because after a duplicate or a sixth file the program opens files without a path; and with two or more directories that `dir_ptr` is not 0, where the program reads `data[-1]` (`GroupedArguments.WritableExactly` says when).
- AddFile: host files do not change between counting and writing, and names are neither empty nor longer than their fields, which the program does not check.
- InodeLookup: allocation failures and null arguments; the inode is a value.
- Read: positions do not overflow `off_t`; so in ReadBack.
- Kmemcpy: source and destination are different objects, as `restrict` says.
- VFS mounts, path lookup and reference counts, `multiboot2` parsing, the page fault handler, TLB and CR3, devices, ACPI, interrupts and concurrency.

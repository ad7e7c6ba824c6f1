# A verified model of Basekernel's stateful core

Basekernel is a small x86 teaching kernel. This project models six parts of it
that keep state across calls, in the form the C code has (classes whose methods
update fields, loops, in-place arrays), and proves what each part is for.

| part | source | modules |
|---|---|---|
| user heap | library/malloc.c | Words, TreeIndex, Tries, Links, Paths, Bins, Removal, SmallBins, BestFit, SizeQueues, Layout, Requests, HeapFacts, UserHeap |
| kernel heap | kernel/kmalloc.c | Blocks, KernelHeap |
| disk file system | kernel/diskfs.c, kernel/fs.c | DiskBlocks, DiskState, DiskVolume, DiskFile, FileSystem, DiskDirectory |
| paging | kernel/page.c, kernel/pagetable.c, sizes in kernel/process.c | PageLedger, PageMemory, PageTables, PageRuns, PageClone, PageAccess, PageLifetime, ProcessMemory |
| buffer cache, lists | kernel/bcache.c, kernel/list.c | BufferCache, LinkedList |
| processes | kernel/process.c, kernel/mutex.c, kernel/pipe.c | Scheduling, ExitWait, WaitRace, MutexProtocol, Kernel, Pipes |

The main results:

* **User heap.** `MallocState.Valid` says that chunks tile the segment, that no two
  neighbours are free, and that every free chunk other than the victim and the top is in
  exactly the bin of its size, with map bits set exactly for non-empty bins. It holds of a
  new heap and every call of `Dlmalloc` and `Dlfree` keeps it. Tree search is exact best fit
  over all bins, with the wrapping 32-bit comparisons as written, and serves chunks of one
  size first in, first out. What is left of a chunk goes exactly where the search order
  needs it: the victim and the top after a call are determined. A chunk in use belongs to
  its holder: no call changes a word that the allocator would use of it if it were free,
  and no store into it breaks the invariant.
* **Kernel heap.** The chunk list is a canonical form: any two runs that leave the same
  blocks live leave the same list, so the order of frees does not matter and freeing
  everything restores the initial chunk.
* **Disk.** Every non-zero block pointer of every inode in use names a marked block that
  no other pointer names; no write or create leaves a marked block without a pointer. A
  write changes one block of one file, the byte loops of fs.c act on a flat zero-filled
  byte array, and a directory is a finite map, also for whoever opens it next.
* **Paging.** The two-level table is a flat map; table and free set together always hold
  the same frames. Over any run of calls on any tables a frame is lost only where an owned
  page is mapped over or unmapped, so deletion restores the free set exactly otherwise; a
  duplicate shares no owned frame with its original. Who may use a page takes both levels,
  and is what was asked for unless a user page goes under a kernel entry. The data and the
  stack of a process never meet, and over any run of resizes both stay mapped and owned, as
  long as twice the largest data size and the largest stack size fit the user space together.
* **Buffer cache.** The devices overlaid by the cache behave like plain devices; which
  blocks are cached, in which order they leave and what is written back is determined.
* **Processes.** Every process is in exactly one place, ready processes are dispatched in
  bounded time, wait queues are first in, first out. A mutex stays with the process that
  locked it until it unlocks, loses no wakeup and is fair. Exits are reported to waiting
  parents when a wait is one step, with the exact condition under which a run overlooks
  none; where a clock tick can interrupt a wait, an exit goes unreported exactly when it
  falls between the parent's scan and its sleep. Pipes are first in first out.

## How to read it

The C code has 32-bit ints; sums and differences that can wrap are written with the
modulus (`Words.Minus`, `Blocks.Signed`). Memory read by address is a map; an address that
was never written reads as some fixed value. A C function with several loops is sometimes
one method per loop, or per branch. Ghost fields (`trees`, `small`, `blocks`, `tables`,
`stored`, ...) hold the abstract value that the invariant ties to the real fields.

Where the code falls short of what one would expect, the code is kept, the exact
condition is proved, and a member shows an input on the failing side:

* kmalloc rounds soundly exactly for lengths from -15 to 0x7fffffe0 (`Blocks.RequestCovers`,
  `Blocks.RequestFails`; input: `Blocks.RequestsGoneWrong`).
* `diskfs_data_block_free` divides by bytes instead of bits, so it frees exactly the block
  numbers below 4096 (`DiskVolume.Volume.DataBlockFree`; input: `DiskVolume.BlockNotFreed`).
* Creating a file returns the new inode even if its name could not be stored for lack of
  blocks; `DiskDirectory.Room` is the exact condition (input: `DiskDirectory.NameLost`).
* Shrinking the data area frees the whole old size from the new end on. It takes stack
  pages away exactly when that run reaches the stack (`ProcessMemory.ShrinkHarmless`;
  input: `ProcessMemory.StackLost`), and kernel pages exactly when it reaches past the end
  of the address space to a mapped one (`ProcessMemory.KernelSafe`; input:
  `ProcessMemory.KernelLost`).
* `pagetable_map` leaves a directory entry that is present as it is, so that a user page next
  to a kernel page is closed to the user although `pagetable_getmap` reports otherwise
  (`PageAccess.MapHonest`; input: `PageAccess.UserPageMasked`).
* `page_init` sets one byte more of the map than is needed, so that 8 bits, and what the
  other 24 bits of the last word held before, stand for frames past the end of memory.
  `page_alloc` hands one out exactly when no page of memory is marked as free
  (`PageMemory.PageMemory.PageAlloc`; input: `PageMemory.FramePastMemory`).
* Removing an interior list node leaves the size of the list one too high, because
  `node->list` is cleared before it is used (`LinkedList.List.Remove`; input:
  `LinkedList.StaleCount`). The store through the null pointer itself is not modelled.
* A process waiting for one particular pid is not woken by some exits its own test would
  accept (`ExitWait.ExitOverlooks`, `ExitWait.RunOverlooks`; input: `ExitWait.LostExit`).
* With interrupts on, a child that exits after its parent scanned the grave list and before
  the parent sleeps wakes nobody (`WaitRace.RunMisses`; input: `WaitRace.ChildLost`).
* `process_allocate_pid` never tries the pid it handed out last
  (`Kernel.PidTable.Allocate`; input: `Kernel.PidNotFound`).
* A non-blocking pipe write does not notice a full ring when the read position is 0
  (`Pipes.Pipe.WriteNonblock`; input: `Pipes.Overrun`).

`DiskVolume.Volume.Format` also shows that a formatted volume addresses one block more than the
device reports: the superblock is not subtracted when the data area is sized.

## Model

| member | source | states |
|---|---|---|
| `Words.BitTest` | basekernel/library/malloc.c:2923-2932 | A map bit tests as marked exactly when its position is in the word |
| `Words.MarkBit` | basekernel/library/malloc.c:2926-2930 | Marking adds exactly one position to a bin map |
| `Words.ClearBit` | basekernel/library/malloc.c:2927-2931 | Clearing removes exactly one position from a bin map |
| `Words.ScanIsMinimum` | basekernel/library/malloc.c:2946-2951 | The bit scan of a non-zero word gives its least position |
| `Words.ScanLeastBit` | basekernel/library/malloc.c:2935 | `x & -x` is non-zero and the scan of it is the scan of x |
| `Words.LeftBitsAbove` | basekernel/library/malloc.c:2938 | left_bits of one bit holds exactly the positions above it |
| `TreeIndex.IndexBounds` | basekernel/library/malloc.c:2843-2854 | A size lies in the range of the tree bin it is given: minsize(i) <= s, and s < minsize(i+1) but for the last bin |
| `TreeIndex.IndexUnique` | basekernel/library/malloc.c:2843-2854 | Only one bin range holds a size |
| `TreeIndex.IndexMonotone` | basekernel/library/malloc.c:2843-2854 | A larger size never gets a smaller index |
| `TreeIndex.BinRange` | basekernel/library/malloc.c:2910-2917 | The range of the bin is an aligned power-of-two interval that holds the size |
| `TreeIndex.DigitSplits` | basekernel/library/malloc.c:3679 | The next digit tells which half of an aligned interval a size is in |
| `TreeIndex.LevelDigit` | basekernel/library/malloc.c:2910-2912 | The sign bit of the shifted size is the digit of the interval at that level |
| `Tries.SizesInRange` | basekernel/library/malloc.c:3314-3361 | Every size stored under a node matches the digits of the path to it |
| `Tries.LeftBelowRight` | basekernel/library/malloc.c:3355-3358 | All sizes in a left subtree are below all sizes in its right sibling |
| `Tries.InsertShape` | basekernel/library/malloc.c:3661-3710 | Insertion keeps the bitwise-trie shape and adds exactly the new size |
| `Tries.InsertAddrs` | basekernel/library/malloc.c:3661-3710 | Insertion adds exactly the new chunk |
| `Tries.InsertDistinct` | basekernel/library/malloc.c:3661-3710 | No chunk is in a trie twice after insertion |
| `Tries.RemoveRootShape` | basekernel/library/malloc.c:3712-3758 | Replacing a node by its rightmost leaf keeps the trie shape of the same interval |
| `Tries.RemoveRootAddrs` | basekernel/library/malloc.c:3712-3758 | Removing the top of a subtree takes away exactly that chunk and keeps the rest distinct |
| `Links.LinkAfterRing` | basekernel/library/malloc.c:3695-3701 | Linking a chunk behind the tree member keeps the ring of equal sizes |
| `Links.UnlinkRing` | basekernel/library/malloc.c:3732-3738 | Unlinking any member leaves a ring of the others |
| `Links.RepFrame` | basekernel/library/malloc.c:3661-3798 | A tree in memory does not depend on anything outside its own chunks |
| `Paths.WalkInsert` | basekernel/library/malloc.c:3674-3708 | Inserting at the end of the walk is inserting into the whole trie |
| `Paths.FindPath` | basekernel/library/malloc.c:3729-3731 | A stored chunk is in the ring of exactly the node its path leads to |
| `Paths.RemoveCorrect` | basekernel/library/malloc.c:3729-3798 | Removing one chunk keeps shape and distinctness and takes away exactly that chunk |
| `Paths.ReplaceRep` | basekernel/library/malloc.c:3765-3770 | Redirecting the one child field replaces the subtree in the represented tree |
| `Bins.AttachLeafRep` | basekernel/library/malloc.c:3683-3688 | Writing the child field and the leaf represents the trie with the new leaf |
| `Bins.AttachRingRep` | basekernel/library/malloc.c:3694-3701 | The four ring stores represent the trie with the chunk chained to its size |
| `Bins.AdoptRep` | basekernel/library/malloc.c:3773-3794 | The replacement with parent and children taken over represents the node it replaces |
| `Bins.EndAtLeaf` | basekernel/library/malloc.c:3678-3688 | A walk that ends at an empty child has inserted the chunk into the bin |
| `Bins.EndAtRing` | basekernel/library/malloc.c:3694-3701 | A walk that ends at an equal size has inserted the chunk into the bin |
| `Bins.TreesUpdate` | basekernel/library/malloc.c:3436-3463 | Changing one tree bin and its map bit keeps the invariant of all tree bins |
| `Removal.UnlinkChained` | basekernel/library/malloc.c:3732-3738 | Unlinking a chained chunk represents the bin without it |
| `Removal.DetachByRing` | basekernel/library/malloc.c:3732-3742 | With others of its size, the bk neighbour is the detached replacement |
| `Removal.DetachByLeaf` | basekernel/library/malloc.c:3743-3757 | With children, the walked-to rightmost leaf is cut off and is the detached replacement |
| `Removal.PlaceRoot` | basekernel/library/malloc.c:3759-3764 | Putting the replacement at the bin root represents the bin without the chunk |
| `Removal.PlaceInner` | basekernel/library/malloc.c:3765-3794 | Putting the replacement under the parent represents the bin without the chunk |
| `SmallBins.SmallInserted` | basekernel/library/malloc.c:3583-3599 | Small insertion keeps lists and map of all small bins and adds exactly one chunk |
| `SmallBins.SmallRemoved` | basekernel/library/malloc.c:3602-3625 | Small removal keeps lists and map of all small bins and takes away exactly one chunk |
| `SmallBins.SmallNotLarge` | basekernel/library/malloc.c:3436-3463 | No chunk is in a small bin and a tree bin |
| `BestFit.WrapCompare` | basekernel/library/malloc.c:4439-4440 | The wrapping comparison `chunksize - nb < rsize` accepts exactly a fit that is strictly better than the best so far |
| `BestFit.WrapDv` | basekernel/library/malloc.c:4476 | The wrapping comparison with `dvsize - nb` holds exactly when dv does not fit or fits worse |
| `BestFit.WalkDown` | basekernel/library/malloc.c:4437-4454 | One step of the walk in the bin of nb: the best so far and the deepest untaken right subtree still cover every fit |
| `BestFit.LeftmostStep` | basekernel/library/malloc.c:4466-4473 | One step along the leftmost path: everything not on it is no better than the best so far |
| `BestFit.NextBin` | basekernel/library/malloc.c:4456-4464 | The next non-empty bin holds the least fit when the bin of nb has none |
| `BestFit.Globalize` | basekernel/library/malloc.c:4466-4473 | A best fit within the bin of nb is a best fit over all bins |
| `BestFit.SearchDone` | basekernel/library/malloc.c:4466-4476 | At the end the chosen chunk has the least fitting size over all tree bins, or none fits |
| `Layout.Disjoint` | basekernel/library/malloc.c:3436-3463 | Chunks of a tiled segment do not overlap |
| `Layout.Covers` | basekernel/library/malloc.c:3436-3463 | Every address of the segment is in some chunk |
| `Layout.AllFree` | basekernel/library/malloc.c:3436-3463 | With nothing in use the segment is the one top chunk |
| `Layout.TakeWhole` | basekernel/library/malloc.c:3064-3067 | Marking a free chunk in use keeps the tiling and the tags of its neighbours |
| `Layout.Split` | basekernel/library/malloc.c:4485-4486 | Splitting a free chunk gives one chunk in use and one free, tags agreeing |
| `Layout.SplitTop` | basekernel/library/malloc.c:4652-4656 | Splitting the top keeps the tiling |
| `Layout.FreedDone` | basekernel/library/malloc.c:4697-4752 | The merged chunk after a free restores the tiling with no two neighbouring free chunks |
| `Layout.TakenAllocated` | basekernel/library/malloc.c:3299-3311 | A taken chunk is large enough, not a minimal chunk too large, and every chunk in use keeps its size and its last word |
| `Requests.PadRequestValue` | basekernel/library/malloc.c:2234-2235 | The padded size is the least multiple of 8 with room for request and header |
| `Requests.NearBins` | basekernel/library/malloc.c:4575-4579 | The two-bit test and the index correction find the exact or next bin when one is marked |
| `Requests.FarBins` | basekernel/library/malloc.c:4595-4597 | The shifted map and the bit scan find the least marked bin above the given one |
| `UserHeap.MallocState.constructor` | basekernel/library/malloc.c:3910-3934 | A new heap over a segment that starts anywhere and ends at a multiple of 8 satisfies the whole invariant with nothing in use |
| `UserHeap.MallocState.InitBins` | basekernel/library/malloc.c:3926-3934 | Every small bin is an empty ring |
| `UserHeap.MallocState.EverythingFreed` | basekernel/library/malloc.c:3436-3463 | Whenever nothing is in use the heap is one top chunk and all bins and maps are empty |
| `UserHeap.MallocState.ExactlyOneBin` | basekernel/library/malloc.c:3276-3296 | Every free chunk but dv and top is in exactly one bin, the one of its size, whose map bit is set |
| `UserHeap.MallocState.InsertLargeChunk` | basekernel/library/malloc.c:3661-3710 | Adds exactly one chunk to the tree bins, last among those of its size, and keeps every bin and map bit right |
| `UserHeap.MallocState.InsertInTree` | basekernel/library/malloc.c:3674-3708 | The walk inserts the chunk into the trie of its bin |
| `UserHeap.MallocState.UnlinkLargeChunk` | basekernel/library/malloc.c:3729-3798 | Takes exactly one chunk out of the tree bins, leaves the order of the others, and keeps every bin and map bit right |
| `UserHeap.MallocState.DetachLast` | basekernel/library/malloc.c:3743-3757 | Finds and cuts off the rightmost leaf as the replacement, or null for a leaf |
| `UserHeap.MallocState.Relink` | basekernel/library/malloc.c:3759-3797 | Parent, children and bin root end up with the replacement |
| `UserHeap.MallocState.InsertSmallChunk` | basekernel/library/malloc.c:3583-3599 | Adds exactly one chunk to the small bins, in front of its list |
| `UserHeap.MallocState.UnlinkSmallChunk` | basekernel/library/malloc.c:3602-3625 | Takes exactly one chunk out of the small bins, and leaves the order of the others |
| `UserHeap.MallocState.UnlinkFirstSmall` | basekernel/library/malloc.c:3628-3643 | Takes the first chunk, of exactly its size, out of a marked small bin |
| `UserHeap.MallocState.InsertChunk` | basekernel/library/malloc.c:3802-3804 | Adds exactly one chunk to the bins |
| `UserHeap.MallocState.UnlinkChunk` | basekernel/library/malloc.c:3806-3808 | Takes exactly one chunk out of the bins |
| `UserHeap.MallocState.ReplaceDv` | basekernel/library/malloc.c:3647-3656 | The old victim is binned and the new one installed |
| `UserHeap.MallocState.SearchBin` | basekernel/library/malloc.c:4428-4455 | After the walk the best so far and the kept subtree cover all fits of the bin of nb |
| `UserHeap.MallocState.ScanLeftmost` | basekernel/library/malloc.c:4466-4473 | The leftmost path of the remaining subtree yields the best fit of all |
| `UserHeap.MallocState.SearchLarge` | basekernel/library/malloc.c:4428-4473 | The result is a least-size tree chunk that fits, the oldest of its size; none is found only if none fits |
| `UserHeap.MallocState.SearchSmall` | basekernel/library/malloc.c:4500-4514 | The result is a least-size tree chunk, the oldest of its size |
| `UserHeap.MallocState.TmallocLarge` | basekernel/library/malloc.c:4426-4495 | Exact best fit over all tree bins, the oldest of its size; the rest, if it can be a chunk, goes to its bin and the victim stays; null only if every tree chunk that fits is no better than a fitting dv; the heap invariant is kept |
| `UserHeap.MallocState.TmallocSmall` | basekernel/library/malloc.c:4498-4534 | Best fit for a small request, the oldest of its size; the rest, if it can be a chunk, is the new victim; the invariant is kept |
| `UserHeap.MallocState.UseWhole` | basekernel/library/malloc.c:3064-3067 | A free chunk outside the bins becomes used as it is |
| `UserHeap.MallocState.SplitOff` | basekernel/library/malloc.c:4485-4486 | A free chunk outside the bins is split into a used front and a free rest |
| `UserHeap.MallocState.AllocNear` | basekernel/library/malloc.c:4577-4588 | A smallest small chunk that fits, the one binned last, serves the request as it is; the victim stays |
| `UserHeap.MallocState.AllocNext` | basekernel/library/malloc.c:4591-4615 | A smallest small chunk that fits, the one binned last, is split at the request, and the victim is exactly the rest |
| `UserHeap.MallocState.AllocFromDv` | basekernel/library/malloc.c:4632-4649 | The victim serves the request: split, with the rest as victim, or whole, leaving none |
| `UserHeap.MallocState.AllocFromTop` | basekernel/library/malloc.c:4651-4661 | The front of the top serves the request; the victim stays |
| `UserHeap.MallocState.Dlmalloc` | basekernel/library/malloc.c:4538-4671 | Keeps the invariant; the chunk is the one the documented search order picks (near small fit, victim, best small fit, best tree fit, top; for large requests the better of tree and victim, then top), was not in use, is large enough and less than a minimal chunk too large; what is left of it, where that goes, and so the victim, the top, the free chunks and the order in which large chunks wait are exactly as documented; every chunk in use keeps its size, the six link words it overlays and its last word; null only if no free chunk fits, with nothing changed |
| `UserHeap.MallocState.SmallMapMeans` | basekernel/library/malloc.c:4575-4591 | The two map tests are true exactly when a small bin fits nearly, or at all |
| `UserHeap.MallocState.BestSmall` | basekernel/library/malloc.c:4595-4600 | A chunk of the least marked bin that fits is a smallest small chunk that fits |
| `UserHeap.MallocState.TreeMapMeans` | basekernel/library/malloc.c:4617-4626 | The tree map is zero exactly when no tree chunk exists |
| `UserHeap.MallocState.NothingFitsSmall` | basekernel/library/malloc.c:4590-4620 | When all small-request branches fail, no free chunk fits |
| `UserHeap.MallocState.NothingFitsLarge` | basekernel/library/malloc.c:4624-4630 | When tree search, dv and top fail, no free chunk fits |
| `UserHeap.MallocState.Dlfree` | basekernel/library/malloc.c:4675-4776 | Keeps the invariant; exactly the given chunk stops being in use; it is merged with the free chunks on both sides, and the victim, the top and the free chunks afterwards are exactly those the merge leaves; every other chunk in use keeps its size, the link words it overlays and its last word |
| `SizeQueues.InsertQueue` | basekernel/library/malloc.c:3700-3705 | A chunk inserted into a trie is the youngest of its size, and no other size is touched |
| `SizeQueues.RemoveRootQueue` | basekernel/library/malloc.c:3731-3757 | When the tree member of a size leaves, the next oldest of that size leads, and the other sizes keep their order even if a leaf moves up |
| `SizeQueues.RemoveWaiting` | basekernel/library/malloc.c:3729-3798 | Taking any chunk out of a tree bin leaves the order of all others |
| `SizeQueues.OldestLeads` | basekernel/library/malloc.c:2361-2364 | The chunk in the tree is the oldest of its size: large chunks of a size are served first in, first out |
| `UserHeap.MallocState.ConsolidateBackward` | basekernel/library/malloc.c:4699-4721 | Merging with the chunk before, in a bin or the victim |
| `UserHeap.MallocState.ConsolidateForward` | basekernel/library/malloc.c:4723-4764 | Merging with the chunk after (top, victim or binned) and binning the result restore the invariant |
| `UserHeap.MallocState.JoinTop` | basekernel/library/malloc.c:4725-4736 | Adding the freed area to the top restores the invariant |
| `UserHeap.MallocState.JoinVictim` | basekernel/library/malloc.c:4737-4741 | Adding the freed area to the victim restores the invariant |
| `UserHeap.MallocState.ClientStores` | basekernel/library/malloc.c:2070-2191 | The invariant survives any store into words it does not own: it reads the links of binned chunks and bin headers only, and foot words only behind free chunks |
| `UserHeap.MallocState.ClientOwns` | basekernel/library/malloc.c:2075-2116 | No address inside a chunk in use, and no foot word at its end, is among the words the invariant reads |
| `UserHeap.AllocateAndFree` | basekernel/library/malloc.c:4538-4776 | Two requests of any size on a new heap, freed in either order, leave the one top chunk and empty bins |
| `Blocks.RequestCovers` | basekernel/kernel/kmalloc.c:36-37 | The rounded size covers request and header exactly for lengths from -15 to 0x7fffffe0; outside, int arithmetic wraps or gives less than a header |
| `Blocks.RequestFails` | basekernel/kernel/kmalloc.c:36-66 | For every other int the size looked for is not positive, every free block passes the test, and cutting a block of more than two headers leaves a list that tiles nothing |
| `Blocks.RequestsGoneWrong` | basekernel/kernel/kmalloc.c:36-66 | A new heap of 1 MB with the lengths 0x7fffffe1 and -16: both find the one free block, and neither list tiles the arena afterwards |
| `Blocks.PayloadsDisjoint` | basekernel/kernel/kmalloc.c:69-94 | Live blocks do not overlap and lie in the arena |
| `Blocks.TotalIsArena` | basekernel/kernel/kmalloc.c:27-33 | Block lengths add up to the arena |
| `Blocks.Determined` | basekernel/kernel/kmalloc.c:76-93 | Two layouts without neighbouring free blocks and with the same live blocks are the same list |
| `Blocks.NothingLive` | basekernel/kernel/kmalloc.c:27-33 | With nothing live the list is the single initial chunk |
| `Blocks.AllocatedMeets` | basekernel/kernel/kmalloc.c:39-66 | The lowest-address fit is taken, cut to the size asked for exactly when more than two headers would remain; nothing else changes; null only if nothing fits |
| `Blocks.ReleasedMeets` | basekernel/kernel/kmalloc.c:76-93 | Merging with next then previous leaves no two neighbouring free blocks and removes exactly the freed one |
| `Blocks.RunsAgree` | basekernel/kernel/kmalloc.c:35-94 | After any run the list is determined by the live blocks, lengths add up to the arena, and no live block means the initial chunk |
| `Blocks.FreeOrder` | basekernel/kernel/kmalloc.c:69-94 | Freeing a set of blocks gives the same list in every order |
| `Blocks.FreeUndoesMalloc` | basekernel/kernel/kmalloc.c:35-94 | kfree of what kmalloc just returned restores the list exactly |
| `KernelHeap.KernelHeap.constructor` | basekernel/kernel/kmalloc.c:27-33 | One free chunk over the arena |
| `KernelHeap.KernelHeap.Kmalloc` | basekernel/kernel/kmalloc.c:35-67 | The headers in memory become those of the first-fit layout; the pointer is the payload of the lowest-address fit, or null |
| `KernelHeap.KernelHeap.Take` | basekernel/kernel/kmalloc.c:52-66 | Split and mark: a chunk is split only if more than two headers would remain |
| `KernelHeap.KernelHeap.Kfree` | basekernel/kernel/kmalloc.c:69-94 | The headers become those of the released layout; a pointer whose header is not in use changes nothing |
| `KernelHeap.KernelHeap.Release` | basekernel/kernel/kmalloc.c:76-93 | Both merges, on the linked headers |
| `KernelHeap.SplitLinked` | basekernel/kernel/kmalloc.c:53-65 | The five header stores of a split represent the list with the block split |
| `KernelHeap.JoinLinked` | basekernel/kernel/kmalloc.c:78-91 | The stores of a merge represent the list with two blocks joined |
| `DiskBlocks.PointerLaw` | basekernel/kernel/diskfs.h:56-63 | A stored block pointer reads back; the other pointers of the block do not change |
| `DiskBlocks.InodeLaw` | basekernel/kernel/diskfs.h:31-36 | A saved inode loads back; the other inodes of the block do not change |
| `DiskBlocks.ItemLaw` | basekernel/kernel/diskfs.h:47-52 | A stored directory item reads back; the other items of the block do not change |
| `DiskBlocks.BitLaw` | basekernel/kernel/diskfs.c:97 | Setting a bitmap bit changes that block number only |
| `DiskBlocks.BitClear` | basekernel/kernel/diskfs.c:88-89 | The byte test of the scan sees exactly the bit of block number 8j+k |
| `DiskState.GrowDirect` | basekernel/kernel/diskfs.c:214-220 | A fresh block as direct pointer keeps ownership and every other block content |
| `DiskState.GrowTable` | basekernel/kernel/diskfs.c:224-234 | A zeroed fresh block as indirect table keeps ownership and every content |
| `DiskState.GrowEntry` | basekernel/kernel/diskfs.c:236-246 | A fresh block as table entry keeps ownership and every other block content |
| `DiskState.StoreContent` | basekernel/kernel/diskfs.c:250 | Writing the block one pointer names changes no other (inode, block) read |
| `DiskState.AddInode` | basekernel/kernel/diskfs.c:416-420 | A zeroed inode in an unused slot keeps ownership and every content |
| `DiskState.SaveSamePointers` | basekernel/kernel/diskfs.c:177-191 | Saving an inode with the same pointers changes no content |
| `DiskVolume.Volume.Format` | basekernel/kernel/diskfs.c:558-631 | A formatted volume is owned: block 1 is the only pointer, all higher blocks are free, the root holds one item, no block is lost |
| `DiskVolume.Volume.DataBlockRead` | basekernel/kernel/diskfs.c:59-63 | Reads the block, or reports an error and leaves the buffer alone |
| `DiskVolume.Volume.DataBlockWrite` | basekernel/kernel/diskfs.c:65-69 | Writes exactly that data block, or nothing |
| `DiskVolume.Volume.DataBlockAlloc` | basekernel/kernel/diskfs.c:77-111 | Marks and returns the lowest free block, never block 0; 0 only if none is free |
| `DiskVolume.Volume.DataBlockFree` | basekernel/kernel/diskfs.c:113-126 | A block becomes free exactly when its number is below 4096; otherwise nothing changes |
| `DiskVolume.BlockNotFreed` | basekernel/kernel/diskfs.c:113-126 | On a formatted volume, block 4096 is handed out and freed again, and is not free |
| `DiskVolume.Volume.InumberAlloc` | basekernel/kernel/diskfs.c:128-150 | Takes the first inode not in use; 0 only if all are in use |
| `DiskVolume.Volume.InodeLoad` | basekernel/kernel/diskfs.c:162-175 | Loads the inode that is on disk |
| `DiskVolume.Volume.InodeSave` | basekernel/kernel/diskfs.c:177-191 | Changes exactly one inode on disk |
| `DiskFile.Dirent.constructor` | basekernel/kernel/diskfs.c:253-266 | The open file starts in step with the disk |
| `DiskFile.Dirent.Close` | basekernel/kernel/diskfs.c:269-274 | Saving the inode changes no file content |
| `DiskFile.Dirent.InodeRead` | basekernel/kernel/diskfs.c:193-205 | Reads the content of the block; a hole reads as zeros |
| `DiskFile.Dirent.InodeWrite` | basekernel/kernel/diskfs.c:207-251 | All or nothing: with enough free blocks the block holds the data and no other content of any file changed, otherwise no content changed; it fails exactly when the blocks needed exceed the free ones; the inode is saved exactly when it changed, and no block is lost |
| `DiskFile.Dirent.AddTable` | basekernel/kernel/diskfs.c:224-234 | The table is allocated, zeroed and saved, or nothing changed |
| `DiskFile.Dirent.WriteEntry` | basekernel/kernel/diskfs.c:236-250 | The same, given a table |
| `FileSystem.DirentRead` | basekernel/kernel/fs.c:251-309 | The bytes of the range, cut to the size of the file, land in the buffer; the rest of the buffer is unchanged |
| `FileSystem.DirentWrite` | basekernel/kernel/fs.c:347-411 | A prefix of the buffer is written at the offset and every other byte of every file is unchanged; the size is max(old, offset+length) even on failure; the flat file is the old one extended with zeros and overlaid; it stops short only when the next block lacks room; no marked block is left without a pointer, and the inode on disk lacks at most the new size |
| `FileSystem.WroteFlat` | basekernel/kernel/fs.c:358-401 | Byte-wise agreement is the flat update, and bytes past the size stay zero |
| `FileSystem.WroteMore` | basekernel/kernel/fs.c:368-400 | One block written back extends the prefix in place, at any alignment |
| `FileSystem.PatchedReads` | basekernel/kernel/fs.c:251-411 | The flat file answers a read of the written range with the buffer, of the gap with zeros, and of the rest with the old bytes |
| `FileSystem.OtherFileKept` | basekernel/kernel/fs.c:347-411 | Another open file stays in step with the disk and keeps its bytes |
| `DiskDirectory.Lookup` | basekernel/kernel/diskfs.c:283-307 | Finds exactly the inode the directory map binds the name to, or null for an unbound name |
| `DiskDirectory.BindName` | basekernel/kernel/diskfs.c:363-368 | Filling a blank item adds exactly one binding for an absent name and keeps names unique |
| `DiskDirectory.FillAttempt` | basekernel/kernel/diskfs.c:359-382 | Writing back the block with the item filled binds the name, or leaves the map as it was |
| `DiskDirectory.AppendAttempt` | basekernel/kernel/diskfs.c:385-398 | With every scanned item in use the name goes to a new block; a failed write leaves a hole and the same map |
| `DiskDirectory.Add` | basekernel/kernel/diskfs.c:351-399 | The name is bound, in the first blank item, exactly when there was room for its block; the size reaches just past that item, and is saved to disk whenever it grew; other items and files do not change |
| `DiskDirectory.Create` | basekernel/kernel/diskfs.c:401-423 | Null exactly for a long name, a bound name or no free inode; otherwise the lowest free inode, empty, is returned, bound exactly when there was room, with all other bindings and files unchanged, the size of the directory saved and no block lost |
| `DiskDirectory.CreateAndReopen` | basekernel/kernel/diskfs.c:253-423 | A directory opened anew after a create is in order, and the new name is found in it exactly when there was room |
| `DiskDirectory.OneBlock` | basekernel/kernel/diskfs.c:351-399 | With one block for files, there is room for a name exactly while the first 128 items are not all in use |
| `DiskDirectory.NameLost` | basekernel/kernel/diskfs.c:401-423 | On a formatted volume with one block for files, creating files until the block is full: one more call returns a file whose name is not in the directory |
| `DiskDirectory.SameDirectory` | basekernel/kernel/diskfs.c:345-349 | Growing the size over blank items changes no binding |
| `DiskDirectory.RootDirectory` | basekernel/kernel/diskfs.c:610-623 | The formatted root binds exactly "." to itself |
| `PageMemory.CellChange` | basekernel/kernel/page.c:77-79 | Clearing or setting one bit removes or adds exactly one frame |
| `PageMemory.PageMemory.constructor` | basekernel/kernel/page.c:27-53 | After page_init on a machine of 2 to 2047 MB exactly the bits 32 up to the number of pages plus 8, and those found set past that, are set, and the counter is short by the pages of the map |
| `PageMemory.SetBytes` | basekernel/kernel/page.c:43 | The bits of exactly the bytes asked for are set, the others keep their value |
| `PageMemory.PageMemory.PageAlloc` | basekernel/kernel/page.c:62-96 | Takes the lowest frame whose bit is set, zeroed on request; it lies past the end of memory if and only if no bit of a page of memory is set; pages_free less the number of set bits is unchanged; it fails (halts) only with no bit set |
| `PageMemory.FramePastMemory` | basekernel/kernel/page.c:27-96 | On a machine of any size from 3 to 2047 MB, when page_init and as many calls as there are free pages have left no page of memory, one more call hands out the frame behind the last one |
| `PageMemory.PageMemory.PageFree` | basekernel/kernel/page.c:98-107 | Exactly that frame becomes free; counter and bits stay in step unless it was free already |
| `PageLedger.TakeFrame` | basekernel/kernel/pagetable.c:33-36 | An allocated frame belongs to no table and changes no translation |
| `PageLedger.AddRoot` | basekernel/kernel/pagetable.c:33-36 | A zeroed frame is a table that maps nothing |
| `PageLedger.AddTable` | basekernel/kernel/pagetable.c:113-130 | A new second-level table changes no translation |
| `PageLedger.SetLeaf` | basekernel/kernel/pagetable.c:135-146 | Writing an entry changes the translation of one page of one table and lets go of the frame it owned |
| `PageLedger.HeldChange` | basekernel/kernel/pagetable.c:89-168 | The frames a table holds change by exactly the frame of one key |
| `PageTables.Create` | basekernel/kernel/pagetable.c:33-36 | A table that maps nothing and holds one frame |
| `PageTables.GetMap` | basekernel/kernel/pagetable.c:58-87 | Reports exactly the flat map: page-aligned frame and the KERNEL, ALLOC and READWRITE bits |
| `PageTables.Map` | basekernel/kernel/pagetable.c:89-149 | One page is mapped as asked, with a new frame under ALLOC; no other translation and no owned page changes; an absent directory slot gets the entry for its kind and no other slot changes; frames are conserved but for the one the page owned before, which is in no table and not free afterwards |
| `PageTables.MapIsUpdate` | basekernel/kernel/pagetable.c:89-149 | In the flat map of the table that is one update; all other flat maps are unchanged |
| `PageRuns.Unmap` | basekernel/kernel/pagetable.c:151-168 | One page is unmapped; its owned frame belongs to no table any more |
| `PageRuns.UnmapIsRemoval` | basekernel/kernel/pagetable.c:151-168 | In the flat map that is one removal; all other flat maps are unchanged |
| `PageRuns.Alloc` | basekernel/kernel/pagetable.c:195-218 | Every page of the run ends up mapped, mapped pages keep their frames, new ones are owned and zeroed under CLEAR; nothing else changes, and of the directory only absent slots of the run; frames are conserved |
| `PageRuns.FreeRun` | basekernel/kernel/pagetable.c:220-242 | Every page of the run ends up unmapped, exactly the owned frames are free again; nothing else changes, the directory not at all |
| `PageRuns.FreeStep` | basekernel/kernel/pagetable.c:232-241 | One more page of the run unmapped and freed |
| `PageClone.Delete` | basekernel/kernel/pagetable.c:169-193 | The frames the table held, and no others, become free, each once; the counter stays in step |
| `PageClone.VisitPage` | basekernel/kernel/pagetable.c:180-187 | The frame of the next owned page was neither free nor freed before in the same deletion |
| `PageClone.Duplicate` | basekernel/kernel/pagetable.c:266-310 | The copy maps every page like the source, owned pages on new frames with equal contents, with the same directory entries but for the frames; the source is unchanged and the new frames are exactly what left the free set |
| `PageClone.CopyMeans` | basekernel/kernel/pagetable.c:289-306 | Same domain and flags; shared pages keep their frame; owned pages have frames that were free, with equal contents |
| `PageClone.CopiedEntry` | basekernel/kernel/pagetable.c:289-306 | One entry copied extends the copy by one page |
| `PageClone.StoreIsPrivate` | basekernel/kernel/pagetable.c:297-305 | A store to an owned page is seen through no other owned page of any live table and changes no table |
| `PageAccess.MapGrants` | basekernel/kernel/pagetable.c:110-149 | A mapped page is open to the user, and to writes, as asked if its directory slot was absent, and no more than the old directory entry allows otherwise; no other page of any table is more or less open than before |
| `PageAccess.AllocGrants` | basekernel/kernel/pagetable.c:195-218 | The same for every page of a run that was not mapped; pages that were stay as open as they were |
| `PageAccess.FreeGrants` | basekernel/kernel/pagetable.c:220-242 | No page of a freed run is open, every other page is as open as before |
| `PageAccess.CopyGrants` | basekernel/kernel/pagetable.c:266-310 | A duplicate opens every page exactly as far as its source |
| `PageAccess.MapHonest` | basekernel/kernel/pagetable.c:58-149 | The flags getmap reports stay those the processor grants if and only if no user page goes under a directory entry that is there for the kernel |
| `PageAccess.AllocHonest` | basekernel/kernel/pagetable.c:58-218 | The same for a run of pages |
| `PageAccess.UserPageMasked` | basekernel/kernel/pagetable.c:41-149 | A user page mapped next to a frame buffer at 0xE0000000 is reported as a user page and closed to the user |
| `PageLifetime.Perform` | basekernel/kernel/pagetable.c:89-242 | Any call on one of any number of tables: the frames that are free or in a table stay so, but for the frame of an owned page that is mapped over or unmapped, and other tables keep theirs; reports stay true exactly if the call puts no user page under a kernel entry |
| `PageLifetime.Run` | basekernel/kernel/pagetable.c:33-310 | Any run of create, map, unmap, alloc, free, duplicate and delete on any tables loses no frame unless an owned page is mapped over or unmapped; with all tables gone every frame not lost is free; the counter stays in step; getmap reports what the processor grants as long as no call puts a user page under a kernel entry |
| `PageLifetime.Lifetime` | basekernel/kernel/pagetable.c:33-242 | A table created, worked on and deleted while others live: exactly the frames that were free before are free again, but for those lost in that way, and the other tables hold what they did |
| `PageLifetime.FreeIs` | basekernel/kernel/pagetable.c:33-242 | What is free follows from what the live tables hold: the two never overlap |
| `ProcessMemory.Process.DataSizeSet` | basekernel/kernel/process.c:141-164 | The data area is mapped and owned for its new size; the stack stays backed, and the kernel pages stay mapped, exactly when the shrink, which frees the whole old size from the new end, does not reach them; new pages are as open to the program as their directory slots were, kept pages keep their access and contents; no other page changes |
| `ProcessMemory.Process.StackSizeSet` | basekernel/kernel/process.c:166-183 | The stack is mapped and owned for its new size, the data area always stays backed, access and contents are kept as for the data, and no other page changes |
| `ProcessMemory.DataShrunk` | basekernel/kernel/process.c:153-156 | Freeing old-size bytes from the new end keeps the data area, and keeps the stack if and only if new + old + stack fit the user space |
| `ProcessMemory.StackShrunk` | basekernel/kernel/process.c:174-177 | Shrinking the stack keeps it, and keeps the data area if and only if data and old stack do not overlap |
| `ProcessMemory.KernelShrunk` | basekernel/kernel/process.c:153-156 | A shrink of the data area unmaps a kernel page if and only if new + old reach past the end of the address space to a mapped one |
| `ProcessMemory.NoOverlap` | basekernel/kernel/process.c:141-183 | A process that owns its data and its stack, both whole pages, has both within the 2 GB of user space together, as no machine has a frame for every user page |
| `ProcessMemory.Process.Room` | basekernel/kernel/process.c:141-183 | So data and stack of a backed process never meet, on the memory of any machine page_init can set up |
| `ProcessMemory.Resizes` | basekernel/kernel/process.c:141-183 | Over any run of resizes with data at most cap and stack at most scap, 2*cap + scap within the user space, both areas stay mapped and owned for their sizes, pages open to the program stay so, frames are conserved and nothing outside the two areas changes |
| `ProcessMemory.StackLost` | basekernel/kernel/process.c:153-156 | A process with 0x50000000 bytes of data and one page of stack, which owns nothing else: shrinking the data to 0x30000000 takes the stack away |
| `ProcessMemory.KernelLost` | basekernel/kernel/process.c:153-156 | A process with 0x50000000 bytes of data and no stack: shrinking the data to 0x40000000 unmaps the first 65536 pages of the kernel |
| `BufferCache.BufferCache.EntryClean` | basekernel/kernel/bcache.c:51-60 | A dirty entry is written to its device and counted |
| `BufferCache.BufferCache.Trim` | basekernel/kernel/bcache.c:62-71 | Exactly the entries past the first 100 are evicted; no view changes, and the devices change in the evicted blocks only |
| `BufferCache.BufferCache.EvictLast` | basekernel/kernel/bcache.c:67-69 | Eviction of the last entry writes it back if dirty and changes no view, even with an unfilled entry at the head |
| `BufferCache.BufferCache.Find` | basekernel/kernel/bcache.c:73-86 | Finds the entry of the block if there is one |
| `BufferCache.BufferCache.FindOrCreate` | basekernel/kernel/bcache.c:88-103 | The entry of the block is in the cache, a new one in front, keys stay unique, and only the view of that block may differ until it is filled |
| `BufferCache.BufferCache.ReadBlock` | basekernel/kernel/bcache.c:105-129 | A successful read returns the view of the block and leaves it cached, in front if it is new; a failed one leaves it out; no view changes; the last entry goes exactly when there were 100, and only it may be written back; hits, misses and write-backs are counted exactly |
| `BufferCache.BufferCache.WriteBlock` | basekernel/kernel/bcache.c:151-168 | Changes the view of exactly that block, leaves it cached and marked dirty, and writes nothing to a device but an evicted entry; counts as for a read |
| `BufferCache.BufferCache.Read` | basekernel/kernel/bcache.c:131-148 | The blocks read are the views, up to the first unreadable block; the result is their number, or not positive if the first of at least one failed; hits and misses add up to the blocks tried |
| `BufferCache.BufferCache.Write` | basekernel/kernel/bcache.c:170-187 | The views of exactly the written blocks change; hits and misses add up to them |
| `BufferCache.BufferCache.FlushBlock` | basekernel/kernel/bcache.c:190-195 | The device holds the view of the block, whose entry is clean; no view and no other mark changes |
| `BufferCache.BufferCache.FlushDevice` | basekernel/kernel/bcache.c:197-208 | The device equals its view and its entries are clean, other devices and all views are unchanged; write-backs count the dirty entries |
| `BufferCache.BufferCache.FlushAll` | basekernel/kernel/bcache.c:210-219 | All devices equal their views and all entries are clean; write-backs count the dirty entries |
| `LinkedList.List.PushHead` | basekernel/kernel/list.c:9-21 | The node is first; links both ways, membership and count agree |
| `LinkedList.List.PushTail` | basekernel/kernel/list.c:23-35 | The node is last; links both ways, membership and count agree |
| `LinkedList.List.PopHead` | basekernel/kernel/list.c:65-79 | The first node is taken off and cleared |
| `LinkedList.List.PopTail` | basekernel/kernel/list.c:81-95 | The last node is taken off and cleared |
| `LinkedList.List.Remove` | basekernel/kernel/list.c:97-114 | Exactly that node is taken out and the links are right; the count is right if and only if the node was head or tail |
| `LinkedList.StaleCount` | basekernel/kernel/list.c:109-113 | Removing the middle of three nodes leaves two nodes and a count of three |
| `Scheduling.StepPlaced` | basekernel/kernel/process.c:246-384 | Every step keeps every launched, unreaped process in exactly one place, once |
| `Scheduling.RunPlaced` | basekernel/kernel/process.c:246-384 | The same over every run |
| `Scheduling.StepAdvances` | basekernel/kernel/process.c:273-283 | No step moves a ready process back, and a switch moves it forward or dispatches it |
| `Scheduling.DispatchedSoon` | basekernel/kernel/process.c:246-350 | A process at ready position k is dispatched within k+1 switches of any run |
| `Scheduling.WokenSoon` | basekernel/kernel/process.c:327-384 | Wait queues are first in, first out: a process at position k is woken by the next k+1 wakeups of its queue, in any run |
| `Scheduling.WakeAllInOrder` | basekernel/kernel/process.c:377-384 | A wakeup of all empties the queue into the ready list in order and changes nothing else |
| `Scheduling.WakeParentPlaced` | basekernel/kernel/process.c:361-375 | Waking the parent moves one watcher to the ready list |
| `ExitWait.ExitTells` | basekernel/kernel/process.c:318-325 | After an exit no watcher sleeps with a dead child it asked for |
| `ExitWait.WaitTells` | basekernel/kernel/process.c:460-491 | Going to sleep in wait leaves no unreported dead child |
| `ExitWait.NeverMissed` | basekernel/kernel/process.c:318-491 | Over every run, with each wait one step, no process sleeps in wait while a dead child matches what it waits for |
| `ExitWait.ExitOverlooks` | basekernel/kernel/process.c:366-474 | The exit leaves no sleeper with an answer to be had if and only if no watcher named another process than the child that exits, or a process that is no child |
| `ExitWait.StepLooks` | basekernel/kernel/process.c:246-506 | Only an exit can leave a sleeper with an answer to be had, and does exactly under that condition |
| `ExitWait.RunOverlooks` | basekernel/kernel/process.c:246-506 | No state of a run has a sleeper with an answer to be had if and only if no exit in it has a watcher of that kind |
| `ExitWait.LostExit` | basekernel/kernel/process.c:366-474 | A run from a new system after which the next exit does not wake a sleeper whose own test would accept the dead process |
| `WaitRace.SleepTells` | basekernel/kernel/process.c:470-484 | With interrupts on, falling asleep leaves an unreported dead child if and only if a child that was asked for exited after the scan |
| `WaitRace.MoveTells` | basekernel/kernel/process.c:246-506 | With interrupts on, only falling asleep can leave a sleeper with an unreported dead child, exactly under that condition; every process stays in one place |
| `WaitRace.RunMisses` | basekernel/kernel/process.c:246-506 | Over every run with interrupts on, no state has a sleeper with an unreported dead child if and only if no child that was asked for exits between a scan and its sleep |
| `WaitRace.ChildLost` | basekernel/kernel/process.c:470-484 | A run from a new system in which a clock tick between scan and sleep lets the child exit, and the parent sleeps with it on the grave list |
| `MutexProtocol.LockKeeps` | basekernel/kernel/mutex.c:11-20 | A pass of mutex_lock keeps the protocol invariant |
| `MutexProtocol.UnlockKeeps` | basekernel/kernel/mutex.c:22-28 | mutex_unlock keeps the protocol invariant |
| `MutexProtocol.OtherKeeps` | basekernel/kernel/process.c:246-384 | Any other scheduling step keeps the protocol invariant |
| `MutexProtocol.MutexSafe` | basekernel/kernel/mutex.c:11-28 | Over every interleaving: at most one holder, locked exactly while held, the sleepers are exactly the queue, and an unlocked mutex with sleepers has a runnable process yet to retest |
| `MutexProtocol.LockTakes` | basekernel/kernel/mutex.c:14-18 | A pass of mutex_lock on a free mutex makes the caller its one holder at once |
| `MutexProtocol.LockSleeps` | basekernel/kernel/mutex.c:14-17 | On a held mutex it puts the caller to sleep at the end of the queue and leaves the holder |
| `MutexProtocol.UnlockFrees` | basekernel/kernel/mutex.c:22-28 | mutex_unlock leaves no holder and makes the first sleeper ready to look again |
| `MutexProtocol.LockedUntilRelease` | basekernel/kernel/mutex.c:11-28 | Over every run from a lock on a free mutex on, the mover stays the one holder until its own unlock, and everyone else who tries is put to sleep |
| `MutexProtocol.TurnComes` | basekernel/kernel/mutex.c:11-28 | A process asleep at position k of the mutex is woken by the next k+1 unlocks of any run |
| `Kernel.Kernel.Switch` | basekernel/kernel/process.c:246-283 | The caller goes to the list it leaves for and the head of the ready list runs, or nobody; queues and processes stay |
| `Kernel.Kernel.Wait` | basekernel/kernel/process.c:327-331 | The caller goes to the end of the queue and the head of the ready list runs; other queues stay |
| `Kernel.Kernel.Wakeup` | basekernel/kernel/process.c:342-350 | Moves the head of a queue to the end of the ready list |
| `Kernel.Kernel.WakeupAll` | basekernel/kernel/process.c:377-384 | Moves a whole queue, in order |
| `Kernel.Kernel.WakeupParent` | basekernel/kernel/process.c:361-375 | The first watcher that is told of the exit goes to the end of the ready list with its note cleared; with none nothing changes |
| `Kernel.Kernel.Exit` | basekernel/kernel/process.c:318-325 | Wakes the parent, then moves the caller to the end of the grave list |
| `Kernel.Kernel.WaitChildPass` | basekernel/kernel/process.c:470-484 | Returns a dead process that answers and changes nothing, or notes the pid and puts the caller at the end of the watchers, exactly when none does |
| `Kernel.Kernel.Reap` | basekernel/kernel/process.c:493-506 | Removes exactly that dead process, or reports that it is not there and changes nothing |
| `Kernel.Mutex.LockPass` | basekernel/kernel/mutex.c:14-18 | With the mutex free the caller holds it, otherwise it sleeps at the end of the queue; locked either way |
| `Kernel.Mutex.Unlock` | basekernel/kernel/mutex.c:22-28 | Frees the lock, leaves the caller outside and makes the first sleeper ready to look again |
| `Kernel.PidTable.Allocate` | basekernel/kernel/process.c:86-107 | The next free pid after the last, cyclically; 0 if and only if every pid other than the last one handed out is taken |
| `Kernel.PidNotFound` | basekernel/kernel/process.c:86-107 | With all pids handed out in order, 5 given back, handed out and given back again, 5 alone is free and the next call gives 0 |
| `Pipes.StoreAppends` | basekernel/kernel/pipe.c:84-85 | A store at the write position appends to the ring |
| `Pipes.FetchTakes` | basekernel/kernel/pipe.c:127-128 | A fetch at the read position takes the first byte |
| `Pipes.Pipe.constructor` | basekernel/kernel/pipe.c:24-41 | A new pipe is empty |
| `Pipes.Pipe.Write` | basekernel/kernel/pipe.c:76-98 | From one wait point to the next: bytes are stored in order, what was delivered plus the ring is what was stored; it stops before the end only with 4095 bytes in the ring, to sleep exactly if no flush came before |
| `Pipes.Pipe.Read` | basekernel/kernel/pipe.c:116-139 | From one wait point to the next: the bytes delivered continue the bytes stored; it stops before the end only with the ring empty, to sleep exactly if no flush came before |
| `Pipes.Pipe.WriteNonblock` | basekernel/kernel/pipe.c:88-96 | Order is kept if and only if the read position is not 0 or the bytes fit the free space; it stores exactly what fits, and everything when the read position is 0 |
| `Pipes.Pipe.Flush` | basekernel/kernel/pipe.c:49-54 | The flag that cuts the next blocked Read or Write short, and that they clear, is set |
| `Pipes.Pipe.ReadNonblock` | basekernel/kernel/pipe.c:131-139 | Delivers the next bytes, as many as asked for and in the ring |
| `Pipes.Overrun` | basekernel/kernel/pipe.c:89 | A non-blocking write of 4096 bytes to a new pipe loses them all |

## Left out

User heap:

- sys_alloc, sys_trim, mmap, mspaces, realloc, memalign, independent allocation, footers and locks. The system allocator is taken to refuse, so that dlmalloc returns null where it would call it; the trim test of dlfree and the release_checks counter, a no-op with one segment, are not there.
- The RTCHECK and corruption branches: the invariant makes them unreachable.
- The union of link fields and user payload: headers and links are separate maps, and a store of the user is a change of those words (`UserHeap.MallocState.ClientStores`). Bin headers live at negative addresses.
- UserHeap.MallocState.constructor: the end of the segment is a multiple of 8, as the size word has no room for other sizes.
- UserHeap.MallocState.Dlmalloc: the system allocator refuses, as above.
- UserHeap.MallocState.Dlfree: no trimming, as above; the pointer is null or one that was handed out.

Kernel heap:

- KernelHeap.KernelHeap.Kfree: asks that the word before the pointer is that of a live chunk or not the used mark; payload bytes that imitate the mark are not modelled.
- KernelHeap.KernelHeap.Kmalloc: a length from -15 to 0x7fffffe0; what happens for the others is `Blocks.RequestFails`, on the list and not in memory.

Disk:

- DiskFile.Dirent.InodeRead: a block index below 1030; the code does not check it and would read past the table.
- DiskFile.Dirent.InodeWrite: the same.
- FileSystem.DirentWrite: the range must end within 1030 blocks, for the same reason.
- FileSystem.DirentRead: offset plus length must fit 32 bits.
- DiskDirectory.Lookup: the items in use have names that fit and inodes in use, as every call of the model leaves them.
- DiskDirectory.Add: the directory must not fill all 1030 blocks.
- DiskDirectory.Create: the same.
- DiskVolume.Volume.Format: asks for a device with data block 0 zero, one block more than it reports, and one bitmap block.
- More than one open dirent for an inode: each has its own copy of the inode.
- diskfs_dirent_remove and diskfs_inode_delete; mount, path traversal and reference counts; I/O errors of the device; the superblock as bytes and its magic number.

Paging:

- pagetable_init, loading and refreshing CR3. The freemap is an array of its own, not the first pages of memory. A page is a sequence of entry records; the bit fields of an entry are assigned at once.
- PageMemory.PageMemory.constructor: 2 to 2047 MB of memory; below that the number of pages is negative, above it the product at page.c:31 overflows an int.
- PageMemory.PageMemory.PageFree: an address that the map has a bit for.
- page_alloc halts when memory runs out: methods then report failure and nothing after them runs. The cleanup of pagetable_duplicate is unreachable for that reason.
- ProcessMemory.Process.DataSizeSet: sizes of at most 2 GB; the pages to be mapped are unmapped or owned.
- ProcessMemory.Process.StackSizeSet: the same, called with whole pages.

Buffer cache and lists:

- BufferCache.BufferCache.Read: with no block asked for, the result is an uninitialised value, of which nothing is said; BufferCache.BufferCache.Write likewise. Write-backs succeed. A block is one unit of data, the cache a sequence of entry objects; running out of memory is not modelled.
- LinkedList.List.Remove: the store through the null list pointer of an interior node.
- list_push_priority, whose head and tail paths drop the priority.

Processes:

- Register save and restore, stacks, interrupts as such. A step lasts until the next switch. process_switch ends with interrupts on (process.c:299), so that the second pass of process_wait_child (process.c:470-484), every pass of it in the kernel shell (kshell.c:211), and what pipe.c does after a sleep (pipe.c:78-86, 118-129) can be preempted: only WaitRace takes a wait apart, into its scan and its falling asleep. process_kill and process_make_dead; timeouts of process_wait_child; exit codes; the process state field.
- Kernel.Kernel.Exit: the exit code and reason.
- Kernel.Kernel.WaitChildPass: the timeout and the exit code.
- ExitWait.NeverMissed: a pass of process_wait_child is one step; what holds when it is not is `WaitRace.RunMisses`. The same goes for ExitWait.RunOverlooks.
- MutexProtocol.MutexSafe: only the holder unlocks, the holder neither locks again nor exits.
- Pipes.Pipe.Write: the wakeup of the pipe's queue at the end, and with it liveness; reference counts. What happens between two wait points is one step, also where interrupts are on.
- Pipes.Pipe.Read: the same.
- hash_set.c, event queues, drivers, user interface, cdromfs, elf, kobjects and the system call dispatcher.

# MaramOS: verified models of the kernel's stateful core

MaramOS is an x86_64 kernel. This project models five of its parts in Dafny and proves what each of them promises.

- **Memory allocators.** `Dyadic`, `Tiling`, `FreeLists`, `BuddyState`, `SlabState` and `Buddy` model the buddy allocator, whose free
  lists live inside the free blocks, and the page slab it lends blocks to. Ghost `pieces` say who owns every unit of memory: they tile
  the memory given to the allocator. `BuddyRuns` proves what holds over every run of calls, `PhysicalInit` the carving of the boot
  memory map, `KernelHeap` the kernel heap on top. `RangeAllocator` models the allocator of virtual ranges against a plain set of addresses.
- **LemonFS.** From the bottom up: `SectorView` (512-byte sectors on larger native blocks), `Disk` (a flat array of sectors) and
  `DriveDisk` (which proves that the sector view refines it), `Bits`, `Crc` and `Superblock`, `BitmapBlock` and `Bitmap`, `Codec` and `FsCodec`
  (packed on-disk structures), `Links`, `Volume`, `FileChain` and `Directory` (chains of link and directory blocks), `FsTree`, `FsDelete`,
  `FsSync`, `FsChange`, `FsWrite`, `FsRead` (changes of one file or directory), `LemonFs` (the mounted file system with its cached root
  directory), `FsMount` (format, init, sync), `FsPaths` (what an operation elsewhere leaves alone), `FsSession` (runs of operations and what is
  known of the files afterwards), `FsReadBack` (reading after writing) and `FsStale` (where stale sectors and caches show). The central
  invariant is separation: the disk holds a tree, no sector belongs to two things in it, and the data sectors marked used are exactly those of
  the tree. Over it the file system is proved to be a map from paths to contents.
- **Scheduling.** `Scheduler` models one CPU's queues, `WorkStealing` all CPUs with the stealing loop as a system of steps.
- **TLB shootdown.** `TlbShootdown` models initiators, mailboxes, ack flags and interrupt handlers as interleaved steps, with timeouts and
  with handlers that run late.
- **Address spaces.** `PageWalk` and `VMem` model the search for free ranges in 4-level page tables and the allocator built from it, `Elf` the
  loader.

`Basics` holds what several parts share. To check every module, run `dafny verify dfyconfig.toml`.

## What the code does that one might not expect

Each of these is part of the model, with the exact condition under which the expected behaviour does hold.

- `alloc_range(0)` hands out an address that is nobody's: a free range of the slab, or a block that `free_range(_, 0)` will not take back.
  Every other count is served properly (`Buddy.BuddyAllocator.AllocRange`).
- `find_first_fit` tests the length of a free run only at the end of each bitmap block. So it fails exactly when no free run that ends a
  block is long enough, whatever is free elsewhere (`Bitmap.FirstFitOk`); nothing in the last block of a mounted volume is ever found, and
  a volume with one bitmap block never allocates (`Bitmap.LastBlockNeverFound`).
- `write` does not renew the extents cached for a file in the root directory, and `read` follows them. As long as the sectors they name are those
  of the file as far as both go, reading returns what was last written exactly when they hold as many bytes as were written, or the room for the
  data ends before the two differ (`FsReadBack.ReadInStep`). That is so after mounting, and over every run of writes that never lets the file
  grow again once it is shorter than its cached extents (`FsReadBack.RootWritesThenRead`). A file just created has no extents cached, so nothing
  is read (`FsReadBack.CreateWriteRead`); one that was created, and mounted again before it was written, has one byte (`FsReadBack.OneByte`). A
  shorter write leaves the cached extents with a sector that is no longer the file's (`FsReadBack.NoLongerOwn`); once another file has taken it
  and the first has grown again, reading returns the other file's sector, even if as many sectors were written as are cached
  (`FsStale.ReusedSector`). Below the root what was written is read (`FsReadBack.WriteThenRead`), and after mounting again also in the root
  (`FsSession.Recall`).
- `create` does not initialise the sector of a new directory. The directory is empty exactly when the sector picked for it already read as an empty
  directory block (`LemonFs.LemonFs.Create`); otherwise it lists what the sector holds. `Directory::sync` frees surplus blocks without blanking
  them, so this happens: after one of nine children is deleted, a directory created next lists the ninth (`FsStale.LingeringEntry`).
- `write` frees and blanks the link blocks of a file before it allocates. If it then runs out of space, the file keeps its data exactly when it had no
  link blocks; every other file is untouched (`FsWrite.SpoiledLate`, `FsSession.KnownAfterSpoil`).
- The comment above `pop` demands a list that is not empty, yet the code handles an empty list. The model follows the code.

## Model

| member | source | states |
|---|---|---|
| `Dyadic.Buddies` | kernel/src/allocators/buddy.rs:37 | the buddy of an aligned block, found by flipping one address bit, is the other half of an aligned block of the next order |
| `Dyadic.MergedUnique` | kernel/src/allocators/buddy.rs:100-115 | two fully merged sets of aligned blocks that cover the same addresses are the same set |
| `Dyadic.OrderForLeast` | kernel/src/allocators/buddy.rs:131 | the order asked for is the least whose block holds the count |
| `Buddy.BuddyAllocator.constructor` | kernel/src/allocators/buddy.rs:18-24 | an allocator starts sound, with no memory and nothing outstanding |
| `Buddy.BuddyAllocator.Push` | kernel/src/allocators/buddy.rs:42-45 | a block the caller holds becomes the head of its order's list; lists stay acyclic and disjoint and the pieces still tile memory |
| `Buddy.BuddyAllocator.Pop` | kernel/src/allocators/buddy.rs:49-55 | nothing exactly when the list is empty; else one free block of that order changes hands and nothing else does |
| `Buddy.BuddyAllocator.Remove` | kernel/src/allocators/buddy.rs:59-73 | true exactly when the block is free at that order; then that block alone leaves the lists, else nothing changes |
| `Buddy.BuddyAllocator.Alloc` | kernel/src/allocators/buddy.rs:75-94 | fails exactly when all lists from the order up are empty; else an aligned block nobody held, and merged lists stay merged |
| `Buddy.BuddyAllocator.FreeWith` | kernel/src/allocators/buddy.rs:100-115 | the block goes back, no other holder is affected, and merged lists stay merged if every merge is allowed |
| `Buddy.BuddyAllocator.FindBlock` | kernel/src/allocators/slab.rs:99-107 | finds a used slab block around an address, and fails only if there is none |
| `Buddy.BuddyAllocator.AllocInBlock` | kernel/src/allocators/slab.rs:109-141 | fails exactly when no free range of the slab block is long enough; else exactly `count` units of it change hands |
| `Buddy.BuddyAllocator.SlabAllocate` | kernel/src/allocators/slab.rs:49-55 | fails exactly when no slab block has room; else takes from one that has |
| `Buddy.BuddyAllocator.AddBlock` | kernel/src/allocators/slab.rs:78-95 | refused exactly when the table is full of used entries; else the block becomes one free range of the slab |
| `Buddy.BuddyAllocator.SlabFree` | kernel/src/allocators/slab.rs:57-76 | a range goes back to its slab block; a block with nothing taken is handed back whole, so no idle block stays lent |
| `Buddy.BuddyAllocator.AllocRange` | kernel/src/allocators/buddy.rs:120-133 | a new outstanding request for exactly `count` units, aligned when it is a whole block; fails exactly when the lists above and, for uneven counts, the slab have nothing; for no units, what it returns is nobody's |
| `Buddy.BuddyAllocator.AllocNothing` | kernel/src/allocators/buddy.rs:121-129 | a request for no units from the slab path returns an address that no request stands for, unless every list is empty |
| `Buddy.BuddyAllocator.FreeRange` | kernel/src/allocators/buddy.rs:137-147 | exactly that request ends, through the slab or the lists, and merged lists stay merged |
| `Buddy.BuddyAllocator.UserWrite` | kernel/src/allocators/buddy.rs:39-45 | whatever a holder writes into its memory leaves the allocator sound, although lists live in memory too |
| `Buddy.BuddyAllocator.Adopt` | kernel/src/memory/physical.rs:47-48 | new aligned memory becomes one free block, and nothing else changes |
| `BuddyRuns.OutstandingDisjoint` | kernel/src/allocators/buddy.rs:117-147 | extents of different outstanding requests share no address and lie in the memory given |
| `BuddyRuns.AllFree` | kernel/src/allocators/slab.rs:57-76 | with nothing outstanding every piece is a free buddy block: the slab has given back all it was lent |
| `BuddyRuns.Restored` | kernel/src/allocators/buddy.rs:75-147 | two merged states over the same memory with nothing outstanding have the same free blocks of every order |
| `BuddyRuns.RoomIffFree` | kernel/src/allocators/buddy.rs:75-83 | in a merged state some list at or above an order has a block exactly when an aligned run of that size is free throughout, so allocation fails only when there is none |
| `BuddyRuns.AllocBlock` | kernel/src/allocators/buddy.rs:75-94 | in a merged state a block is refused exactly when no aligned run of its size is free, or no order is that large |
| `BuddyRuns.Request` | kernel/src/allocators/buddy.rs:120-133 | in a merged state a request is refused exactly when no aligned run of its order is free and, where the slab may serve it, no range there is long enough |
| `BuddyRuns.Do` | kernel/src/allocators/buddy.rs:120-147 | each allocation, free or client write keeps the allocator valid, the client's ledger exact and the lists merged |
| `BuddyRuns.Run` | kernel/src/allocators/buddy.rs:75-147 | over every script of calls the allocator stays valid; when all is freed, each order has its original free blocks |
| `PhysicalInit.FitOrder` | kernel/src/memory/physical.rs:39-45 | the order chosen is aligned, fits, and could not be larger |
| `PhysicalInit.NoBuddy` | kernel/src/memory/physical.rs:36-51 | a greedily carved block has no free buddy if no other memory touches its entry |
| `PhysicalInit.CarveEntry` | kernel/src/memory/physical.rs:28-52 | an entry adds exactly its whole pages, and keeps the lists merged if it touches no other memory |
| `PhysicalInit.Init` | kernel/src/memory/physical.rs:22-53 | the free memory is exactly the whole usable pages, fully merged when no two entries touch |
| `KernelHeap.LayoutFits` | kernel/src/memory/heap.rs:29-34 | the units hold the size, and for a large alignment they are a block at least that large |
| `KernelHeap.HeapAlloc` | kernel/src/memory/heap.rs:42-44 | a pointer has the layout's alignment and room and is the caller's alone; null only when no list has a block |
| `KernelHeap.HeapDealloc` | kernel/src/memory/heap.rs:46-48 | exactly that allocation ends |
| `RangeAllocator.CanonicalUnique` | kernel/src/allocators/range.rs:81-94 | a set of free addresses has one sorted list of ranges with gaps between them |
| `RangeAllocator.Allocator.Coalesce` | kernel/src/allocators/range.rs:81-94 | sorting and merging gives that list for the same addresses |
| `RangeAllocator.Allocator.Allocate` | kernel/src/allocators/range.rs:17-34 | the lowest aligned free run, and exactly it leaves the free set; none only if no aligned run is free |
| `RangeAllocator.Allocator.AddRange` | kernel/src/allocators/range.rs:36-39 | exactly that run joins the free set and the list stays canonical |
| `RangeAllocator.Allocator.FreeRange` | kernel/src/allocators/range.rs:41-44 | exactly that run joins the free set and the list stays canonical |
| `RangeAllocator.Allocator.Covers` | kernel/src/allocators/range.rs:52-62 | the walk accepts exactly the runs that are free throughout |
| `RangeAllocator.Allocator.CutOut` | kernel/src/allocators/range.rs:64-76 | exactly the run leaves the free set |
| `RangeAllocator.Allocator.Reserve` | kernel/src/allocators/range.rs:46-79 | succeeds exactly when the whole run is free and does not overflow, and otherwise leaves the list as it was |
| `RangeAllocator.Allocator.AllocateThenFree` | kernel/src/allocators/range.rs:17-44 | freeing what was just allocated restores the very same list |
| `PageWalk.EndsUnusedAt` | kernel/src/memory/virt.rs:278-340 | a walk looks up the entry at the address's index and goes on below it |
| `PageWalk.ScanExact` | kernel/src/memory/virt.rs:278-340 | every address is in exactly one region found if its walk ends at an unused entry, and in none otherwise |
| `PageWalk.IndexSteps` | kernel/src/memory/virt.rs:350-356 | indices count up evenly from the start of the half, with the upper half sign-extended |
| `PageWalk.FindFreeRanges` | kernel/src/memory/virt.rs:278-340 | the nested loops find exactly the regions of the recursive scan of that half |
| `VMem.NewUser` | kernel/src/memory/virt.rs:70-83 | the allocator of a user space has exactly the addresses whose walk ends at an unused entry |
| `VMem.EmptyTableFree` | kernel/src/memory/virt.rs:278-340 | an empty half is free throughout |
| `VMem.Alloc` | kernel/src/memory/virt.rs:201-212 | the lowest free run of whole pages at the alignment its size calls for, none exactly when there is none or none is asked for |
| `VMem.ReservePages` | kernel/src/memory/virt.rs:214-221 | succeeds exactly for whole pages that are all free |
| `Elf.ParseOne` | kernel/src/elf/loader.rs:88-112 | a header is accepted exactly when its file bytes are in the file and its pages below the user limit, without overflow |
| `Elf.ParseSegments` | kernel/src/elf/loader.rs:83-118 | accepts exactly the files whose loadable headers all can be met, at least one of which is not empty |
| `Elf.CheckNoOverlap` | kernel/src/elf/loader.rs:73-81 | comparing sorted neighbours accepts exactly the lists in which no two segments share a page |
| `Elf.ValidateEntry` | kernel/src/elf/loader.rs:63-71 | accepted exactly when an executable segment holds the entry point |
| `Elf.MapSegment` | kernel/src/elf/loader.rs:50-61 | succeeds exactly when the pages are free; the file's bytes are at their addresses and the rest is zero |
| `Elf.MapAll` | kernel/src/elf/loader.rs:42-45 | on a fresh user space every segment is mapped and their pages alone are taken |
| `Elf.Load` | kernel/src/elf/loader.rs:32-48 | loads exactly the acceptable files: the segments are those of the headers, apart, with exact images, the entry is the file's and executable, no reservation fails, and the new space loses exactly their pages |
| `Crc.Generators` | kernel/src/helpers/crc.rs:3-5 | both polynomials have full width |
| `Crc.FeedIsDivide` | kernel/src/helpers/crc.rs:46-67 | feeding bytes is bit-at-a-time division of the message |
| `Crc.ByteChangeDetected` | kernel/src/helpers/crc.rs:46-67 | changing any one byte of any message changes its checksum |
| `Crc.LookupStep` | kernel/src/helpers/crc.rs:49-64 | one table look-up is eight division steps |
| `Crc.FillTable` | kernel/src/helpers/crc.rs:7-43 | the nested loops fill the table of eight-step remainders |
| `Crc.Checksum` | kernel/src/helpers/crc.rs:46-67 | the table-driven loop equals bit-at-a-time division for every message |
| `SectorView.PhysPage.ReadData` | kernel/src/fs/lba_abstractor.rs:31 | reads the sector at an offset, or fails beyond the pages |
| `SectorView.PhysPage.WriteData` | kernel/src/fs/lba_abstractor.rs:32 | writes exactly the sector at an offset, or fails beyond the pages |
| `SectorView.Sizing` | kernel/src/drivers/storage/mod.rs:174-182 | the pages allocated hold the blocks read |
| `SectorView.Drive.ReadSmart` | kernel/src/drivers/storage/mod.rs:174-182 | new pages that begin with exactly the blocks asked for |
| `SectorView.InBounds` | kernel/src/drivers/storage/mod.rs:69-88 | the native blocks lie in the partition exactly when the sectors do |
| `SectorView.NativeRange` | kernel/src/fs/lba_abstractor.rs:22-24 | the native blocks computed are the least that hold the sectors |
| `SectorView.PartitionDrive.NativeRead` | kernel/src/drivers/storage/mod.rs:69-76 | refused exactly beyond the partition; else the partition's blocks |
| `SectorView.PartitionDrive.NativeWrite` | kernel/src/drivers/storage/mod.rs:78-88 | refused exactly beyond the partition or the source; else exactly those blocks change |
| `SectorView.PartitionDrive.ReadSectors` | kernel/src/fs/lba_abstractor.rs:17-36 | returns exactly the sectors asked for; fails exactly for none or beyond the partition |
| `SectorView.PartitionDrive.WriteSectors` | kernel/src/fs/lba_abstractor.rs:38-79 | changes exactly the sectors asked for on the whole drive, whatever native blocks they share; fails exactly beyond the source or the partition, changing nothing |
| `SectorView.PartitionDrive.ZeroSectors` | kernel/src/fs/lba_abstractor.rs:81-98 | blanks exactly the sectors asked for, in as many pieces as it takes; beyond the partition it fails after blanking exactly the whole pieces that lie on it |
| `DriveDisk.DriveDisk.ReadSector` | kernel/src/fs/lemonfs/io.rs:4-7 | the sector of the flat view, or an error exactly beyond it |
| `DriveDisk.DriveDisk.WriteSector` | kernel/src/fs/lemonfs/io.rs:9-13 | exactly that sector of the flat view changes, or an error exactly beyond it |
| `DriveDisk.Lockstep` | kernel/src/fs/lba_abstractor.rs:17-98 | the same access to a partition and to a flat array of what it holds gives the same answer and leaves the same content |
| `DriveDisk.Refines` | kernel/src/fs/lba_abstractor.rs:17-98 | over every run of accesses, failing ones included, a partition of any native block size is a flat array of sectors |
| `Superblock.DecodeEncode` | kernel/src/fs/lemonfs/disk.rs:36-54 | a superblock survives being written and read |
| `Superblock.CheckedIsImage` | kernel/src/fs/lemonfs/superblock.rs:35-48 | checking the decoded fields is checking the 512 bytes on disk |
| `Superblock.DamageDetected` | kernel/src/fs/lemonfs/superblock.rs:35-48 | an image that passes still passes after one byte is set exactly if the byte is unchanged |
| `Superblock.StampedChecked` | kernel/src/fs/lemonfs/superblock.rs:19-33 | what is written passes the check |
| `Superblock.SurvivesDamage` | kernel/src/fs/lemonfs/superblock.rs:9-33 | after a write, any damage to one byte of one copy leaves what was written readable, and damage to the first copy is reported |
| `Superblock.Compute` | kernel/src/fs/lemonfs/superblock.rs:41-48 | the checksum computed is the division of the image |
| `Superblock.Check` | kernel/src/fs/lemonfs/superblock.rs:35-39 | accepts exactly superblocks whose checksum is that of the rest |
| `Superblock.WriteSb` | kernel/src/fs/lemonfs/superblock.rs:19-33 | both copies, and nothing else, hold the stamped superblock |
| `Superblock.GetSuperblock` | kernel/src/fs/lemonfs/superblock.rs:9-17 | the first copy if it checks, else the backup if that does, else an error |
| `Superblock.NewOk` | kernel/src/fs/lemonfs/disk.rs:57-70 | every volume of at least 4096 sectors gets a bitmap that covers its data sectors, with the root block after them |
| `Superblock.WrittenFound` | kernel/src/fs/lemonfs/superblock.rs:9-33 | what was written is found again, with its geometry |
| `BitmapBlock.GetAssign` | kernel/src/fs/lemonfs/bitmap.rs:155-164 | setting or clearing a bit changes that bit alone |
| `BitmapBlock.Uniform` | kernel/src/fs/lemonfs/bitmap.rs:29-40 | bytes of one value are exactly the blocks whose bits are all equal |
| `Bitmap.CanonicalUnique` | kernel/src/fs/lemonfs/bitmap.rs:29-40 | two canonical bitmaps with the same bits are the same bitmap |
| `Bitmap.AssignBitOk` | kernel/src/fs/lemonfs/bitmap.rs:60-86 | assigning a bit changes that bit of the flat view alone and keeps the bitmap canonical |
| `Bitmap.FirstFitOk` | kernel/src/fs/lemonfs/bitmap.rs:88-117 | the bits found are free; none are found exactly when no free run that ends a block is long enough |
| `Bitmap.LastBlockNeverFound` | kernel/src/fs/lemonfs/bitmap.rs:88-117 | where the last bit is used, nothing in the last block is ever found |
| `Bitmap.FirstFitAt` | kernel/src/fs/lemonfs/bitmap.rs:88-117 | where the first block is free from some bit on and not before, a search for one bit finds it |
| `Bitmap.RoomTaken` | kernel/src/fs/lemonfs/bitmap.rs:88-123 | as long as the first block ends in a free run, the search finds its start, and taking that leaves a run one shorter |
| `Bitmap.BitmapAllocator.SetBit` | kernel/src/fs/lemonfs/bitmap.rs:60-72 | that bit alone becomes used in the flat view, and the bitmap stays canonical |
| `Bitmap.BitmapAllocator.ClearBit` | kernel/src/fs/lemonfs/bitmap.rs:74-86 | that bit alone becomes free in the flat view, and the bitmap stays canonical |
| `Bitmap.BitmapAllocator.FindFirstFit` | kernel/src/fs/lemonfs/bitmap.rs:88-117 | the block-wise search returns the start of the free run that ends at the first block boundary where it is long enough |
| `Bitmap.BitmapAllocator.Alloc` | kernel/src/fs/lemonfs/bitmap.rs:119-123 | exactly the sectors returned, which were free, become used |
| `Bitmap.BitmapAllocator.FreeSectors` | kernel/src/fs/lemonfs/bitmap.rs:125-128 | exactly those sectors become free |
| `Bitmap.BitmapAllocator.ReserveFrom` | kernel/src/fs/lemonfs/bitmap.rs:131-138 | exactly the sectors beyond `lba` become used; nothing if it is before the data |
| `Bitmap.BitmapAllocator.AllocThenFree` | kernel/src/fs/lemonfs/bitmap.rs:119-128 | freeing what was just taken restores the very same bitmap |
| `Bitmap.BitmapAllocator.AddBlock` | kernel/src/fs/lemonfs/bitmap.rs:21-24 | a block read from disk joins the bitmap in canonical form |
| `Bitmap.BitmapAllocator.Sync` | kernel/src/fs/lemonfs/bitmap.rs:140-152 | each bitmap sector holds its block's bytes and no other sector changes |
| `Bitmap.BitmapAllocator.Load` | kernel/src/fs/lemonfs/mod.rs:355-360 | the bitmap is the canonical form of its sectors |
| `Bitmap.SyncThenLoad` | kernel/src/fs/lemonfs/bitmap.rs:140-152 | a bitmap written and read back is the same bitmap |
| `Bitmap.AllocWithinData` | kernel/src/fs/lemonfs/mod.rs:361-362 | once everything from the end of the data is reserved, only data sectors are handed out, and this stays so |
| `Codec.Le64` | kernel/src/fs/lemonfs/disk.rs:140-143 | a 64-bit number survives its eight little-endian bytes |
| `FsCodec.LinkSectorOk` | kernel/src/fs/lemonfs/disk.rs:140-146 | a link block survives its sector |
| `FsCodec.DirSectorOk` | kernel/src/fs/lemonfs/disk.rs:98-135 | a directory block survives its sector |
| `FsCodec.NameRoundTrip` | kernel/src/fs/lemonfs/disk.rs:81-91 | a storable name survives, and is not taken for an empty slot |
| `FsCodec.BlankDir` | kernel/src/fs/lemonfs/disk.rs:93 | a blank sector reads as a directory block without entries and without successor |
| `Links.ChainUnique` | kernel/src/fs/lemonfs/links.rs:38-54 | the link blocks of a chain are determined by the disk |
| `Links.ChainFrame` | kernel/src/fs/lemonfs/links.rs:38-54 | a chain and its extents depend on its own link blocks alone |
| `Links.Trace` | kernel/src/fs/lemonfs/links.rs:38-54 | returns the extents in order and exactly the link blocks, on every chain that ends |
| `Links.ResolveLink` | kernel/src/fs/lemonfs/links.rs:5-17 | nothing for no link, an extent for itself, and a link block's extents with its successor |
| `Links.ResolveLinks` | kernel/src/fs/lemonfs/links.rs:20-34 | the stack traversal agrees with `trace` on the extents |
| `FileChain.CoalescedOk` | kernel/src/fs/lemonfs/mod.rs:76-82 | coalesced extents stand for the same sectors in the same order |
| `FileChain.Coalesce` | kernel/src/fs/lemonfs/mod.rs:76-82 | the loop computes the extents of which `CoalescedOk` speaks |
| `FileChain.ChunksChain` | kernel/src/fs/lemonfs/mod.rs:87-98 | link blocks of 31 extents and a pointer form a chain that holds exactly the extents |
| `FileChain.BuildFileChain` | kernel/src/fs/lemonfs/mod.rs:74-101 | from the new head the chain leads, through exactly the blocks allocated for it, to extents that expand to `blocks`; nothing else is written; it fails only when the volume is exhausted |
| `Directory.DirFrame` | kernel/src/fs/lemonfs/directory.rs:189-205 | a directory's entries depend on its own blocks alone |
| `Directory.DirChunksChain` | kernel/src/fs/lemonfs/directory.rs:166-183 | blocks of eight entries and a pointer form a chain that holds exactly the entries |
| `Directory.Collect` | kernel/src/fs/lemonfs/directory.rs:146-153 | collects exactly the blocks of the chain |
| `Directory.Resize` | kernel/src/fs/lemonfs/directory.rs:155-164 | the chain is shortened, freeing exactly the rest, or extended by sectors that were free |
| `Directory.Sync` | kernel/src/fs/lemonfs/directory.rs:143-186 | afterwards the chain holds exactly the children in order, exactly its blocks are used, and nothing else is written; fails only if it needs more blocks and the volume is exhausted |
| `Directory.LoadChildren` | kernel/src/fs/lemonfs/directory.rs:189-205 | returns every named entry of the chain in order |
| `Directory.LoadEntry` | kernel/src/fs/lemonfs/directory.rs:58-63 | a file is loaded with the extents its head leads to and their total size |
| `Directory.LoadedDentries` | kernel/src/fs/lemonfs/directory.rs:49-63 | what is loaded projects to what is on disk |
| `Directory.SyncThenReload` | kernel/src/fs/lemonfs/directory.rs:143-205 | a directory written and loaded again has the same entries in the same order |
| `Volume.Volume.Alloc` | kernel/src/fs/lemonfs/bitmap.rs:119-123 | the sector the search picks, a data sector that was not in use; none exactly when the search finds nothing, and never while the first bitmap block ends in a free run |
| `Volume.Volume.Picks` | kernel/src/fs/lemonfs/bitmap.rs:88-117 | a free sector after a used one, with free ones to the end of the first bitmap block, is the one picked |
| `FsTree.RepFrame` | kernel/src/fs/lemonfs/directory.rs:82-109 | a file or directory depends on its own sectors alone |
| `FsTree.ReplaceOk` | kernel/src/fs/lemonfs/mod.rs:48-72 | exchanging a part at any depth keeps the whole tree held by the disk and separate |
| `FsTree.Lifted` | kernel/src/fs/lemonfs/mod.rs:105-310 | an operation that touches only its part and takes only free sectors leaves the whole volume sound |
| `FsDelete.DeleteFile` | kernel/src/fs/lemonfs/file.rs:41-58 | frees and blanks exactly the file's data sectors and link blocks |
| `FsDelete.DeleteDir` | kernel/src/fs/lemonfs/directory.rs:116-141 | terminates, and frees and blanks exactly the sectors of everything in and below the directory |
| `FsDelete.DeleteNode` | kernel/src/fs/lemonfs/directory.rs:118-127 | frees and blanks exactly the sectors of the child |
| `FsSync.SyncLocal` | kernel/src/fs/lemonfs/directory.rs:143-186 | writing a directory touches its own chain alone |
| `FsSync.SyncDir` | kernel/src/fs/lemonfs/directory.rs:143-186 | a directory written with new children is held by the disk, separate, and a local change of what it was |
| `FsChange.PartOfSound` | kernel/src/fs/lemonfs/mod.rs:48-72 | every directory of a sound volume is sound by itself |
| `FsChange.Added` | kernel/src/fs/lemonfs/mod.rs:115-121 | appending a child with sectors that were free is a local change |
| `FsChange.Exchange` | kernel/src/fs/lemonfs/mod.rs:242-302 | exchanging a child for a local change of it is a local change |
| `FsChange.Removed` | kernel/src/fs/lemonfs/mod.rs:135-147 | removing a child whose sectors were freed is a local change |
| `FsWrite.TakeBlocks` | kernel/src/fs/lemonfs/mod.rs:255-264 | keeps the first blocks of the file and adds only sectors that were free |
| `FsWrite.DropSurplus` | kernel/src/fs/lemonfs/mod.rs:266-270 | frees and blanks exactly the blocks no longer needed |
| `FsWrite.WriteContent` | kernel/src/fs/lemonfs/mod.rs:284-300 | the chain's sectors hold the source in order and no other sector changes |
| `FsWrite.RewrittenOk` | kernel/src/fs/lemonfs/mod.rs:242-300 | the steps of a write together exchange the old file for the new one and touch nothing else |
| `FsWrite.Rewrite` | kernel/src/fs/lemonfs/mod.rs:242-300 | the new head leads to sectors that hold the source in order; the used sectors change by exactly those gained and given up; with room for the sectors and their link blocks it succeeds, and it fails only when the volume is exhausted |
| `FsWrite.SpoiledLate` | kernel/src/fs/lemonfs/mod.rs:242-273 | a write that runs out of space touches only the file's own sectors; without link blocks it writes nothing, with link blocks the entry no longer leads to the data |
| `FsRead.ReadLinks` | kernel/src/fs/lemonfs/mod.rs:210-228 | the extents' bytes in order, up to the room there is |
| `FsRead.ReadBack` | kernel/src/fs/lemonfs/mod.rs:195-310 | a file that holds the source reads as the source's bytes |
| `LemonFs.FindChild` | kernel/src/fs/lemonfs/directory.rs:74-76 | the first child of that name |
| `LemonFs.LemonFs.constructor` | kernel/src/fs/lemonfs/mod.rs:363-369 | mounting a sound volume gives a cache that projects to the root directory on disk, with the extents the files have there |
| `LemonFs.LemonFs.Descend` | kernel/src/fs/lemonfs/mod.rs:52-69 | the child directory of that name, or the error for a missing name or a file |
| `LemonFs.LemonFs.GetParent` | kernel/src/fs/lemonfs/mod.rs:48-72 | the directory a path leads to in the tree, or exactly the error it leads to |
| `LemonFs.LemonFs.Create` | kernel/src/fs/lemonfs/mod.rs:105-127 | the directory gains exactly the new child, on the sector picked; a file, or a directory whose sector read as an empty block, keeps the volume sound and the cache in step; a new directory is empty exactly in that case; each error exactly in its case; two sectors of room are enough, and without space only bits of the bitmap change |
| `LemonFs.EmptyIff` | kernel/src/fs/lemonfs/mod.rs:115-121 | a directory of one sector is empty exactly if the sector reads as an empty directory block |
| `LemonFs.LemonFs.Delete` | kernel/src/fs/lemonfs/mod.rs:129-155 | the tree loses exactly that child with all below it; an existing path is always deleted; the cache stays in step |
| `LemonFs.LemonFs.Write` | kernel/src/fs/lemonfs/mod.rs:231-310 | the file holds the source and keeps its place and name, and only its own sectors and its directory's are touched; each error exactly in its case; room for the sectors and their link blocks is enough, and without space the file keeps its data exactly if it had no link blocks |
| `LemonFs.LemonFs.Read` | kernel/src/fs/lemonfs/mod.rs:195-229 | the bytes of the extents cached for a file in the root, or of those on disk below it, up to the room there is |
| `FsMount.LoadBitmap` | kernel/src/fs/lemonfs/mod.rs:355-362 | the data sectors used are those of the bitmap on disk, and nothing beyond them can be handed out |
| `FsMount.Format` | kernel/src/fs/lemonfs/mod.rs:371-379 | leaves an empty volume with a good superblock, or changes nothing on a disk that is too small |
| `FsMount.Init` | kernel/src/fs/lemonfs/mod.rs:348-369 | a good volume is mounted with its tree, unchanged, and with a fresh cache; any other is formatted and mounted empty, unless too small |
| `FsMount.SyncAll` | kernel/src/fs/lemonfs/mod.rs:342-346 | afterwards the disk alone holds the whole volume |
| `FsMount.SyncThenInit` | kernel/src/fs/lemonfs/mod.rs:342-369 | a volume synced and mounted again has the same tree over the same data sectors |
| `FsPaths.LookupLocated` | kernel/src/fs/lemonfs/mod.rs:48-72 | following a path to its parent and finding the name there is looking the path up |
| `FsPaths.ElsewhereApart` | kernel/src/fs/lemonfs/mod.rs:105-310 | a file that is not below a directory shares no sector with it |
| `FsPaths.PathsApart` | kernel/src/fs/lemonfs/mod.rs:105-310 | files at different paths share no sector |
| `FsPaths.CreateKeeps` | kernel/src/fs/lemonfs/mod.rs:105-127 | creating a child changes neither place nor content of any file |
| `FsPaths.WriteKeeps` | kernel/src/fs/lemonfs/mod.rs:231-310 | writing a file changes neither place nor content of any other file |
| `FsPaths.DeleteKeeps` | kernel/src/fs/lemonfs/mod.rs:129-155 | deleting a child changes neither path nor content of any file that is not it or below it |
| `FsSession.IsReady` | kernel/src/fs/lemonfs/mod.rs:115-121 | tells whether the sector to be taken next reads as an empty directory block |
| `FsSession.Do` | kernel/src/fs/lemonfs/mod.rs:105-310 | one request keeps the volume sound and names apart, and the files hold what they held, but for what it deletes or writes |
| `FsSession.KnownAfterSpoil` | kernel/src/fs/lemonfs/mod.rs:242-273 | after a write that ran out of space every other file holds what it held, and so does the file itself if it had no link blocks |
| `FsSession.Session` | kernel/src/fs/lemonfs/mod.rs:105-310 | over every run of creations, deletions and writes the volume stays sound, the cache equal to the root on disk, and every path leads to what was last written there; when the volume is exhausted this still holds of every file but the one being written |
| `FsSession.Recall` | kernel/src/fs/lemonfs/mod.rs:195-229 | a file reads as what was last written to it, below the root always and in the root while the cache is fresh |
| `FsSession.Remount` | kernel/src/fs/lemonfs/mod.rs:342-369 | syncing and mounting again keeps the content of every file and makes the cache fresh |
| `FsReadBack.LocateSame` | kernel/src/fs/lemonfs/mod.rs:231-310 | a path leads to the same place after the file there was written |
| `FsReadBack.WriteThenRead` | kernel/src/fs/lemonfs/mod.rs:195-310 | below the root, reading returns what was last written |
| `FsReadBack.CachedBytes` | kernel/src/fs/lemonfs/mod.rs:202-228 | extents in step with a file return what it holds exactly if they are as many bytes, or the room ends before the two differ |
| `FsReadBack.StaysInStep` | kernel/src/fs/lemonfs/mod.rs:255-281 | a write keeps cached extents in step unless it lets a file grow that was shorter than they are |
| `FsReadBack.ReadInStep` | kernel/src/fs/lemonfs/mod.rs:195-229 | the same for every file in the root whose cached extents are in step |
| `FsReadBack.RootWritesThenRead` | kernel/src/fs/lemonfs/mod.rs:195-310 | the same over every run of writes that never lets the file grow again once it is shorter than its cached extents |
| `FsReadBack.NoLongerOwn` | kernel/src/fs/lemonfs/mod.rs:266-270 | after a write that leaves the file shorter, the cached extents name a sector that is no longer its own |
| `FsReadBack.OneByte` | kernel/src/fs/lemonfs/mod.rs:195-310 | a file mounted before its first write returns one byte of what is written |
| `FsReadBack.CreateWriteRead` | kernel/src/fs/lemonfs/mod.rs:105-310 | a file created in the root, written and read gives nothing, although it holds the source |
| `FsStale.SurplusBlocksLinger` | kernel/src/fs/lemonfs/directory.rs:155-158 | a block that a directory gives up is free and keeps its content; if it is picked next, it is ready for a new directory exactly if it had no entries and no successor |
| `FsStale.DeleteNinth` | kernel/src/fs/lemonfs/directory.rs:155-158 | deleting one of nine children of the root frees its second block, which keeps its content and is picked next |
| `FsStale.LingeringEntry` | kernel/src/fs/lemonfs/mod.rs:105-155 | a directory created then succeeds and is not empty: it lists the ninth child of the root |
| `FsStale.Shrink` | kernel/src/fs/lemonfs/mod.rs:255-270 | a file written shorter makes the first sector it gives up the one picked next, while its cached extents still name it |
| `FsStale.ReusedSector` | kernel/src/fs/lemonfs/mod.rs:195-310 | with room on the volume it always comes to this: another file takes that sector, and reading the first returns the other's content there, whatever was written since |
| `Scheduler.PickSplits` | kernel/src/scheduling/scheduler.rs:45-65 | taking tasks out splits the queue: every task is in one part, and as many go as asked for |
| `Scheduler.LeftPosition` | kernel/src/scheduling/scheduler.rs:59-62 | a task that is not taken does not move back |
| `Scheduler.TickKeeps` | kernel/src/scheduling/scheduler.rs:68-125 | with something ready, a call keeps every task once and drops the running one only if it has terminated |
| `Scheduler.CpuScheduler.TaskCount` | kernel/src/scheduling/scheduler.rs:30-42 | counts the user tasks, and the others as kernel tasks |
| `Scheduler.CpuScheduler.TakeUserTasks` | kernel/src/scheduling/scheduler.rs:45-65 | refused exactly when there are too few user tasks; else the two loops take the first ones, last first, and leave the rest in order |
| `Scheduler.CpuScheduler.SchedLogic` | kernel/src/scheduling/scheduler.rs:68-135 | the loops carry out one tick: due sleepers become ready, the head runs, the task that ran is queued by its state |
| `WorkStealing.NeverClones` | kernel/src/scheduling/scheduler.rs:89-94 | as long as the boot task is ready, the idle clone is never made |
| `WorkStealing.StepTotal` | kernel/src/scheduling/mod.rs:20-48 | each step changes the number of places of each task exactly as it should |
| `WorkStealing.StepKeepsInv` | kernel/src/scheduling/mod.rs:20-107 | every step of every CPU keeps the invariant |
| `WorkStealing.TasksConserved` | kernel/src/scheduling/mod.rs:20-107 | in every run a task is in at most one place, appears only when added, and disappears only when it has terminated and is switched out |
| `WorkStealing.StealsHalfTheGap` | kernel/src/scheduling/mod.rs:32-35 | a steal takes user tasks only, at most half of what the victim has more |
| `WorkStealing.BoundedWaiting` | kernel/src/scheduling/scheduler.rs:68-125 | a task at position `k` runs at the latest on the (k+1)-th next scheduling call of its CPU, unless it is stolen first |
| `WorkStealing.BusiestQueue` | kernel/src/scheduling/mod.rs:51-65 | the first CPU with the most user tasks, none exactly when no CPU has any |
| `WorkStealing.LaziestQueue` | kernel/src/scheduling/mod.rs:68-83 | the first CPU with the fewest user tasks |
| `TlbShootdown.StepKeepsInv` | kernel/src/smp/ipi.rs:73-189 | every step of an initiator or a handler, late ones included, keeps the protocol's invariant |
| `TlbShootdown.AckMeansFlushed` | kernel/src/smp/ipi.rs:73-189 | in every run, an ack seen by the initiator means that all addresses asked for were invalidated since the request was posted, or that the CPU has halted for good |
| `TlbShootdown.OneInitiator` | kernel/src/smp/ipi.rs:73-146 | at most one CPU posts a request or waits for acks |
| `TlbShootdown.NeverStuck` | kernel/src/smp/ipi.rs:73-189 | no deadlock: while a request is under way or wanted, its CPU, the holder of the IPI lock or a handler holding its mailbox can go on |

## Left out

- Units: buddy addresses and counts are in units of the smallest block, and `Flip` stands for the XOR with the block size; lengths are not bounded by 64 or 32 bits.
- Buddy.BuddyAllocator.FreeRange: requires that the address and count name an outstanding request, as the callers guarantee; other frees corrupt the allocator.
- BuddyRuns.Do: passes over requests for no units, since `AllocRange` shows that these break the invariant.
- RangeAllocator.Allocator.FreeRange: requires a non-empty run that is not free; an empty or doubly freed run would stay in the list as an extra range.
- RangeAllocator.Allocator.AddRange: requires a non-empty run that is not free, as `find_free_ranges` provides.
- RangeAllocator.Allocator.Allocate: requires that aligning a range's start does not overflow 64 bits.
- VMem.NewUser: the user half only; ranges of the kernel half that end at 2^64 wrap in the source.
- Volume.Volume.Alloc: volumes of at most 2^55 sectors, so that every size in bytes is a 64-bit number.
- LemonFs.LemonFs.Create: no symlinks, and names of 1 to 36 bytes without NUL; after `NoSpace` sectors stay marked used that nothing owns, so the volume no longer counts as sound.
- LemonFs.LemonFs.Write: after `NoSpace` the volume no longer counts as sound, since sectors stay marked used that nothing owns; a source of no pages, on which the original panics, is excluded.
- FsSession.Session: starts from a tree in which no directory has a name twice, which the operations keep; a directory is created only when the sector to be taken is ready.
- FsReadBack.ReadInStep: cached extents are whole sectors but for the last, as all that the file system makes are.
- FsMount.Init: a superblock that passes its check is taken to describe a volume; the model does not say what happens on a disk that passes the check without holding one.
- SectorView.Drive.ReadSmart: drives transfer what is asked for; failures of the drive and of page allocation are not modelled.
- TlbShootdown.AckMeansFlushed: interleavings are sequentially consistent, all CPUs are online, and nothing is promised for `halt_other_cpus`, whose acks a late TLB handler can set.
- Scheduler.CpuScheduler.SchedLogic: stack pointers and the switch of page tables are not part of the state.
- Symlinks and `route_symlink`, `list` and `file_size`: symlinks alias sectors outside the separation invariant; the other two only read.
- Path strings and UTF-8: a path is a sequence of components, a name a sequence of bytes.
- `VMemAllocator::map` and `unmap`, `try_upgrade_hhdm`: they rest on the page-table mapper of another crate.
- The GPT entry loop, AHCI, PCI, interrupts, timers, system calls, ACPI, terminal and build tooling: hardware, parsing or user interface.
- ELF header parsing and file access: the loader is modelled from the program headers on.

# xv6: a verified model of its file system, memory, processes and tools

This project models the parts of the xv6 teaching kernel (the variant with a checksummed redo log) that
are hardest to get right, and proves what they promise: the write-ahead log and its crash recovery, block
allocation and file contents, the image builder, the user-level heap, page tables and the page allocator,
the buffer cache, sleep and wakeup, the process tree, link counts, pipes, the shell's parser and grep's
matcher.

State that the kernel changes in place is held by classes (`Log`, `Fs`, `Image`, `Heap`, `Memory`, `Bcache`,
`Ptable`, `Tree`, `Pipe`, `Parser`); their methods follow the source's loops and branches and are proved
against functions on values. Code whose correctness depends on interleaving is also a state machine
over values: its steps are what happens between two lock operations, runs are sequences of steps in any
order by any number of processes, and the theorems are about every run. A panic is a result or a step that
is not enabled; where the source relies on it never happening, that is a theorem.

| files | what they model |
|---|---|
| Params, Wrappers, Blocks | fixed sizes, optional results, 512-byte blocks, words and the weighted byte sum |
| LogSpec, LogCrash, LogGate | the log on disk, crashes at any block write, what the boot-time gate does |
| BlockDevice, LogDevice, LogReservation | a disk with blocks pinned in memory, log.c as an object over it; log space reservation in any interleaving |
| Bitmap, Inodes, FileSystem, FileWrite | free map, ownership, readi/writei/itrunc, filewrite |
| Mkfs, ImageLife | the image that mkfs builds, and runs that start from it |
| Umalloc | the K&R heap |
| PageSpec, SpaceSpec, PageTables | page ownership, whole address spaces, vm.c and kalloc.c as an object |
| BufferSpec, BufferCache, LogCache | bio.c as a state machine over a block store, and its linked list; that the cache is the log's device |
| SleepWakeup | sleep, wakeup and sleep locks, on any number of channels |
| ProcSpec, ProcTable | fork, exit, wait, kill |
| LinkSpec, LinkTree, LinkCalls | link, unlink, create: link counts and the directory tree |
| Pipes, Regexp | pipes, grep's matcher |
| ShellSpec, ShellMeaning, ShellUnique, ShellParser | command lines and their grammar, what it means, that reading from the left finds the only derivation, the shell's parser |

## Where the code falls short of what its comments promise

Each of these is a lemma that says exactly when the promise holds.

- The checksum gate at boot compares the stored checksum with the sum of no blocks, because the in-memory
  count is still 0 there. A transaction that reached its commit point therefore survives a crash before the
  header is cleared exactly when its checksum happens to be 0 modulo 512, or the blocks not yet installed
  already had their new contents (`LogCrash.ExactRecovery`, `LogCrash.SurvivesIff`). `LogGate` has the
  input that loses a committed write. `LogCrash.CrashAtomicity` is the promise itself, for runs in which no boot
  refuses a committed log.
- A log that a boot refused stays on disk. If the next transaction stops before its own header write, the boot
  after it can write that transaction's blocks over blocks it never named (`LogGate.RefusedLogCorrupts`); the
  home blocks come through unharmed exactly when the checksum found is not 0 or every block that the old header
  names already held what the log blocks hold now (`LogGate.UnharmedIff`).
- `log_write` tests for room before it looks whether the block is already recorded, so with ten distinct
  blocks per operation a repeat can panic, exactly when the log is full (`LogReservation.PanicExactly`,
  `LogReservation.FullLogPanics`); with nine it never does (`LogReservation.NoPanicBelowLimit`).
- The comment on the log layout says that the checksum covers the logged blocks; the sum covers the header
  and all of them but the last (`LogDevice.Log.WriteChecksum`).
- mkfs rounds the root directory's size up past its last entry, which leaves a block unallocated inside it
  exactly when the entries are a multiple of 32 (`Mkfs.Image.Build`). Neither a read nor a write within the size
  copies the inode to disk, so the first scan of such a root takes a block that the inode on disk does not name,
  and only of such a root (`ImageLife.ScanRoot`, `FileSystem.Fs.Readi`, `FileSystem.Fs.Writei`). mkfs with 30
  empty files on its own disk is such an image (`ImageLife.HoleInRoot`).
- malloc's rounding up wraps around for requests within 7 bytes of 2^32 (`Umalloc.PayloadFits`).
- create and link do not look whether the directory has been removed. What they make there, file or directory, is
  counted for an entry that cannot be reached: its count is right exactly when the directory can still be reached
  (`LinkTree.CreateCountsIff`, `LinkTree.LinkCountsIff`), and a step keeps counts and tree exactly when it makes
  no entry in a removed directory (`LinkTree.StepIsSoundIff`). `LinkTree.RemovedDirectory` is such a run.

## Model

| member | source | states |
|---|---|---|
| Blocks.WordRoundTrip | xv6/log.c:301-311 | a word stored as four little-endian bytes reads back as itself |
| Blocks.WordBytes | xv6/log.c:301-311 | the low byte of a word comes first, and storing it changes no other byte |
| Blocks.WordFrame | xv6/log.c:115-121 | storing a word changes no word elsewhere in the block |
| Blocks.BlockSumsBound | xv6/log.c:285-291 | a bound on the weighted sum of n blocks, so that 28 blocks never wrap 32 bits |
| Blocks.OneByteChangeCaught | xv6/log.c:326-333 | a one-byte change by d at offset j of a summed block changes the stored value if and only if 512 does not divide (j+1)d |
| LogSpec.ReplayIsIdempotent | xv6/log.c:81-93 | replaying a redo log over any partly replayed disk gives the fully replayed disk |
| LogSpec.AbsorbShape | xv6/log.c:266-272 | absorption keeps one entry per block |
| LogSpec.AbsorbKeepsEffect | xv6/log.c:266-272 | the absorbed transaction has the effect of all the log_write calls, on every disk |
| LogSpec.HeaderRoundTrip | xv6/log.c:96-124 | read_head finds the count and the block numbers that write_head stored, and stale entries after them |
| LogCrash.AtCommitPoint | xv6/log.c:228-236 | after the header write the log on disk describes the whole transaction while no home block has changed |
| LogCrash.WhileInstalling | xv6/log.c:235-238 | after k more writes the log still describes the transaction and exactly its first blocks are at home |
| LogCrash.AfterCommit | xv6/log.c:228-244 | a finished commit leaves an empty log and the transaction at home |
| LogCrash.StepKeepsInv | xv6/log.c:80-158 | a transaction or a boot, cut short at any block write, keeps the run's invariant |
| LogCrash.CrashAtomicity | xv6/log.c:80-244 | after any run of transactions, crashes at any block write and boots that refuse no committed log, a running kernel sees exactly the committed transactions, and a crashed disk holds them once its log is replayed |
| LogCrash.ExactRecovery | xv6/log.c:126-158 | after a crash between commit point and clearing, boot reinstalls if and only if the weighted sum of the old header and the first n-1 logged blocks is 0 modulo 512; otherwise it leaves exactly the blocks already installed |
| LogCrash.SurvivesIff | xv6/log.c:126-158 | such a transaction survives if and only if its checksum is 0 or the blocks not yet installed already held their new contents |
| LogGate.CommittedYetLost | xv6/log.c:126-158 | two writes of one block after which a committed write is gone, for every block number of a given kind |
| LogGate.RefusedLogCorrupts | xv6/log.c:126-158 | inputs for which a third write, to another block and not committed, is put over the first block by the next boot |
| LogGate.StaleRecovery | xv6/log.c:126-158 | a transaction that stops before its header write, over any log left behind: the next boot writes the old header's blocks with what the log blocks hold by then if the checksum it finds is 0, and nothing otherwise |
| LogGate.UnharmedIff | xv6/log.c:126-158 | then the home blocks are as before if and only if that checksum is not 0 or every block of the old header already held what its log block holds now |
| LogDevice.Log.constructor | xv6/log.c:63-77 | the log as boot finds it: nothing recorded, nothing pinned |
| LogDevice.Log.LogWrite | xv6/log.c:255-276 | refuses exactly as the code panics, else records by absorption and pins the block with its contents |
| LogDevice.Log.EndOp | xv6/log.c:181-210 | the last operation commits: every home block reads as before, and from the disk, and the log on disk is empty |
| LogDevice.Log.Transact | xv6/log.c:161-276 | an operation with at most ten distinct blocks is admitted and never refused, its block writes are those of one transaction with its calls, and the home blocks read and hold what the calls wrote |
| LogDevice.Log.WriteLog | xv6/log.c:213-226 | copies the recorded blocks into the log area, in order |
| LogDevice.Log.SumBlocks | xv6/log.c:285-292 | the 32-bit loop computes the exact sum, without wrapping |
| LogDevice.Log.WriteChecksum | xv6/log.c:279-307 | stores the sum modulo 512 of the header and all logged blocks but the last, and changes nothing else |
| LogDevice.Log.CheckChecksum | xv6/log.c:321-348 | true if and only if the stored value is the sum of the same blocks as they now are |
| LogDevice.Log.WriteHead | xv6/log.c:112-124 | writes the header for the transaction, entries past it left stale |
| LogDevice.Log.InstallTrans | xv6/log.c:80-93 | the disk becomes the replay of the logged blocks |
| LogDevice.Log.Commit | xv6/log.c:228-244 | its block writes are the commit sequence in order, so its checksum panic is unreachable; the header on disk says 0 afterwards |
| LogDevice.Log.ReadHead | xv6/log.c:96-107 | the header in memory is the one on disk |
| LogDevice.Log.Recover | xv6/log.c:126-158 | its block writes are exactly those of the boot, given the gate; if the gate opens, the log on disk is empty afterwards |
| LogDevice.CommitKeepsView | xv6/log.c:228-244 | a commit puts on disk what the pinned buffers hold |
| LogReservation.StepKeepsInv | xv6/log.c:161-276 | begin, log_write's test, its recording, end and commit, in any order, keep recorded blocks plus unspent reservations within the log |
| LogReservation.ReservationHolds | xv6/log.c:161-276 | with at most ten distinct blocks per operation a new block always finds room at the test, which is made without the lock, and still when it is recorded; a commit finds no operation in progress |
| LogReservation.NoPanicBelowLimit | xv6/log.c:255-276 | with at most nine no log_write panics, repeats included |
| LogReservation.PanicExactly | xv6/log.c:255-276 | with ten, a log_write panics if and only if the log is full, and then the block is a repeat |
| LogReservation.FullLogPanics | xv6/log.c:255-276 | a run of three operations within ten distinct blocks each that panics |
| LogReservation.IdleAdmits | xv6/log.c:161-210 | in every run a log with no operation in progress and no commit due holds nothing, and begin_op admits an operation |
| LogReservation.CommitEmpties | xv6/log.c:228-244 | after a commit nothing is recorded and nobody is in progress; begin_op admits two operations and makes a third wait |
| Bitmap.MarkReads | xv6/fs.c:65-69 | setting a block's bit makes that block, and no other, in use |
| Bitmap.ClearReads | xv6/fs.c:87-93 | clearing it makes that block, and no other, free |
| Bitmap.BitIsPower | xv6/fs.c:65-93 | setting bit k of a byte adds 2^k unless it is there, clearing it takes 2^k away if it is |
| Inodes.OwnedMeans | xv6/fs.c:56-95 | ownership means: a bit is set if and only if the block is metadata or held by a slot, no two slots share a block, and block 0 is never free |
| Inodes.GrowDirect | xv6/fs.c:378-382 | a free, zeroed block in an empty direct slot keeps ownership and shows in no file |
| Inodes.GrowEntry | xv6/fs.c:385-396 | the same for an empty entry of the indirect block |
| Inodes.WriteData | xv6/fs.c:498-504 | changing bytes of one file's block changes that file there and no other |
| FileSystem.Fs.Balloc | xv6/fs.c:56-78 | the lowest free block, marked and zeroed; fails if and only if all are in use; whatever differs on the disk afterwards has been passed to log_write |
| FileSystem.Fs.Bfree | xv6/fs.c:81-95 | panics if and only if the block is free, else frees it; the bitmap block it changes has been passed to log_write |
| FileSystem.Fs.Bmap | xv6/fs.c:372-400 | the block of the file, from addrs or from its word in the indirect block, allocated if need be: ownership kept, no file's contents changed, nothing changed at all if it was there; every block, bitmap block and inode block that differs on the disk afterwards has been passed to log_write, and a bound on what else has |
| FileSystem.Fs.WriteChunk | xv6/fs.c:498-503 | one turn of that loop: one piece of one block, which has been passed to log_write along with all that bmap changed |
| FileSystem.Fs.WriteBytes | xv6/fs.c:498-504 | the copying loop: after each turn the bytes so far are in place, the rest of every file is as it was, and whatever differs on the disk has been passed to log_write |
| FileSystem.Fs.Writei | xv6/fs.c:481-511 | refuses exactly a start past the end or a file too large; else splices the bytes into this file only, holes or not; the inode on disk is still the cached one if and only if the file grew or no address was missing; every data, indirect, bitmap and inode block that differs on the disk afterwards has been passed to log_write, and a bound on what else has; runs out of blocks only when every block is in use |
| FileSystem.Fs.Readi | xv6/fs.c:452-476 | refuses exactly past the end; else the file's bytes, cut at its end, and no file changes; the free map changes if and only if the range meets a hole, and without one nothing changes; what changes has been passed to log_write; the inode on disk is still the cached one if and only if no address was missing; it runs out of blocks only where a hole needs one |
| FileSystem.Fs.FreeIndirect | xv6/fs.c:421-431 | frees the indirect block and what it holds, and only that |
| FileSystem.Fs.Itrunc | xv6/fs.c:407-435 | the file is empty, its blocks are free, the inode on disk is the cached one, no other inode is affected, no bfree panics, and the bitmap and inode blocks that differ afterwards have been passed to log_write |
| FileSystem.ChunkFitsTransaction | xv6/file.c:127-133 | in a file without holes a chunk logs at most ten blocks whatever the size of the free map; in any file at most seven if the map is one block |
| FileWrite.WriteTransaction | xv6/file.c:135-151 | one chunk is one transaction within the log's limit, and what it logs covers whatever it changes on the disk; moves the offset by what it wrote, and makes no hole |
| FileWrite.Filewrite | xv6/file.c:117-156 | the file ends up as if written in one piece, up to the last chunk that fits; one transaction for every 1536 bytes written, which together log whatever the call changes on the disk, each within the limit if the file has no holes; -1 exactly when not all was written; no result only when every block is in use |
| FileWrite.WrittenMeans | xv6/file.c:127-151 | how much that is: nothing past the end of the file, everything that ends below 71680 bytes, else as many pieces of 1536 bytes as fit below |
| FileWrite.SpliceReads | xv6/fs.c:498-509 | a write at an offset changes exactly the bytes from there on, and the length only if it goes past the end |
| FileWrite.Perform | xv6/fs.c:407-511 | a read, write, truncation or filewrite does to the disk what it does to plain byte strings, and opens no hole in a file without one; a filewrite makes one transaction for every 1536 bytes, and they cover what it changes |
| FileWrite.Run | xv6/fs.c:372-511 | every run of reads, writes, truncations and filewrites, on files with or without holes, gives the replies and the files of a run on plain byte strings, with ownership kept throughout and no hole opened; every filewrite transaction, counted exactly, fits the log if the file had no holes; it stops short only with every block in use |
| Mkfs.Image.Iappend | xv6/mkfs.c:255-297 | the file grows by the bytes, no other changes, and it takes exactly the blocks that the growth needs; fails if and only if the file gets too large or those blocks are not there |
| Mkfs.Image.Ialloc | xv6/mkfs.c:223-235 | the next inode, empty, with one link; none exactly when all inodes are taken |
| Mkfs.Image.WriteBitmap | xv6/mkfs.c:237-251 | the free map has exactly the bits below the counter |
| Mkfs.Image.FixRoot | xv6/mkfs.c:158-163 | rounding the root's size adds zeroes, and opens a hole if and only if it ended on a block boundary |
| Mkfs.Image.CopyIn | xv6/mkfs.c:152-153 | the file holds the bytes copied in, buffer by buffer; fails if and only if it is too large or the blocks it needs are not there |
| Mkfs.Image.AddFile | xv6/mkfs.c:145-153 | a new inode, a file with one link, holds the file and the root one more entry, with the inode's number and the file's name; no other file changes; succeeds if and only if there are inodes and blocks for both and neither gets too large |
| Mkfs.Image.Build | xv6/mkfs.c:108-165 | succeeds if and only if the files fit: names without a slash, no file too large, inodes enough, and blocks enough, counted exactly; then the image satisfies block ownership with the map it writes and every inode's file is what it should be; the root is a directory, the files are files, each with one link, and all other inodes are unused; the root has a hole if and only if its entries are a multiple of 32 |
| Mkfs.RootReads | xv6/mkfs.c:117-163 | read as a directory, the root names itself twice, then each file under its name by the inode that holds it; all entries after those are free |
| Mkfs.RootNames | xv6/mkfs.c:120-149 | the name in an entry is one dot, two dots, or the path without a leading underscore: its first fourteen bytes, with zeroes after a shorter one |
| ImageLife.BuildAndRun | xv6/mkfs.c:108-165 | mkfs, which succeeds if and only if the files fit, and then any run of reads, writes, truncations and filewrites: replies and files are those of byte strings that start as the files given to mkfs, with ownership kept throughout; every filewrite transaction, but on the root, logs at most ten blocks whatever the size of the free map |
| ImageLife.ScanRoot | xv6/fs.c:452-476 | the first scan of the root sees what mkfs wrote; it changes the free map, and parts the root's inode on disk from the cached one, if and only if the entries are a multiple of 32; it panics if and only if they are and mkfs used the last block |
| ImageLife.EmptyFilesFit | xv6/mkfs.c:18-103 | any number of empty files that the inodes allow fits mkfs's own disk of 1000 blocks |
| ImageLife.HoleInRoot | xv6/mkfs.c:158-163 | 30 empty files on that disk: the scan takes a block that the root's inode on disk does not name |
| Umalloc.RingInsert | xv6/umalloc.c:31-43 | linking a block in after its place keeps the circular list in address order |
| Umalloc.RingRemove | xv6/umalloc.c:77-78 | unlinking one does too |
| Umalloc.BlocksDisjoint | xv6/umalloc.c:24-90 | no two blocks, free or live, overlap |
| Umalloc.Coalesced | xv6/umalloc.c:32-42 | two adjacent free units are always in the same block |
| Umalloc.Heap.FindPlace | xv6/umalloc.c:29-31 | the walk ends, at the free block after which the block belongs |
| Umalloc.Heap.JoinUpper | xv6/umalloc.c:32-36 | the first half of free: merges with the block above if it touches it |
| Umalloc.Heap.JoinLower | xv6/umalloc.c:37-42 | the second half: merges with the block below if it touches it; no two free blocks touch afterwards |
| Umalloc.Heap.Free | xv6/umalloc.c:24-44 | the block is free and merged, the search starts next time at the free block below it, no other live block changes, and every unit is still in exactly one block |
| Umalloc.Heap.Morecore | xv6/umalloc.c:46-61 | exactly the new units become free, the number asked for or 4096 if that is more; nothing changes if sbrk fails |
| Umalloc.Heap.Scan | xv6/umalloc.c:73-87 | one trip around the list: the first block that is large enough, or none because none is |
| Umalloc.Heap.Take | xv6/umalloc.c:75-83 | the whole block or its tail becomes live, and the search starts next time at the block before it; conserves units |
| Umalloc.Heap.Start | xv6/umalloc.c:70-73 | the first call sets up an empty list |
| Umalloc.Heap.Malloc | xv6/umalloc.c:63-90 | a block of its own that overlaps no live block, the tail of the first free block that is large enough if there is one, or 0 exactly when there is none and sbrk fails; no more than a unit larger than asked for; memory grows only when it must |
| Umalloc.PayloadFits | xv6/umalloc.c:69 | the payload holds the request if and only if the rounding up does not wrap around, and then with less than a unit to spare |
| PageSpec.OnePlace | xv6/vm.c:35-80 | every page not held elsewhere is in exactly one of free list, directories, tables and user mappings, each table in one entry and each user page in one mapping |
| PageSpec.PopKeepsInv | xv6/kalloc.c:82-95 | taking a page from the free list keeps every page in one place |
| PageSpec.PushKeepsInv | xv6/kalloc.c:59-77 | giving one back does too |
| PageSpec.TableKeepsInv | xv6/vm.c:45-52 | a new, empty table keeps it, and changes no translation (TableLookup) |
| PageSpec.TableLookup | xv6/vm.c:45-54 | a new table adds one entry and changes no translation in any space |
| PageSpec.MapKeepsInv | xv6/vm.c:71-73 | writing an entry keeps every page in one place |
| PageSpec.MapLookup | xv6/vm.c:71-73 | and changes that one translation only |
| PageSpec.UnmapKeepsInv | xv6/vm.c:269-276 | clearing a user entry keeps every page in one place |
| PageSpec.ClearedTable | xv6/vm.c:266-268 | jumping over an absent table misses no mapping |
| PageSpec.DetachKeepsInv | xv6/vm.c:290-297 | a space without user pages can be taken apart |
| PageSpec.ReleasedAll | xv6/vm.c:283-298 | clearing the user part and freeing tables and directory frees exactly the pages of the space |
| PageSpec.GrowLookup | xv6/vm.c:35-80 | while one space grows every other translates as before |
| PageSpec.SpentShort | xv6/vm.c:60-80 | running short of pages in the middle of a range means that there were too few for all of it |
| SpaceSpec.Undone | xv6/vm.c:342-344 | making a space, growing it in any way and releasing it changes nothing but the order of the free list |
| SpaceSpec.GrowthUndone | xv6/vm.c:235-246 | clearing the range after a failed growth restores every translation and every page |
| SpaceSpec.PagesApart | xv6/vm.c:325-339 | two user mappings never share a page |
| SpaceSpec.KernelCovers | xv6/vm.c:105-115 | the kernel's mappings need tables 512 to 567 and 1016 to 1023, wherever its data begins |
| SpaceSpec.KernelPages | xv6/vm.c:105-115 | page by page: physical memory from KERNBASE on, read-only from the end of the I/O space to where the data begins and else writable; the devices at their own addresses, writable; nothing else |
| PageTables.Memory.constructor | xv6/kalloc.c:31-37 | memory at boot, every page held |
| PageTables.Memory.Freerange | xv6/kalloc.c:46-53 | exactly the pages of the range become free |
| PageTables.Memory.Kalloc | xv6/kalloc.c:82-95 | the first free page, or 0 exactly when there is none |
| PageTables.Memory.Kfree | xv6/kalloc.c:59-77 | the page, all 4096 bytes of it ones, is the first free one |
| PageTables.Memory.Walkpgdir | xv6/vm.c:35-55 | finds or makes the table, fails exactly for want of one, changes no translation and takes only free pages |
| PageTables.Memory.Mappages | xv6/vm.c:60-80 | maps the whole range if and only if there are as many free pages as tables missing for it, else a proper prefix of it, and changes nothing else |
| PageTables.Memory.Deallocuvm | xv6/vm.c:255-279 | exactly the pages whose first byte lies between the new size and the old are unmapped and free, everything else is as it was |
| PageTables.Memory.ClearRange | xv6/vm.c:264-277 | the loop with its jumps covers the range |
| PageTables.Memory.ClearPte | xv6/vm.c:269-276 | unmaps and frees one page if it is mapped |
| PageTables.Memory.FreeTables | xv6/vm.c:291-296 | frees each table once |
| PageTables.Memory.Freevm | xv6/vm.c:283-298 | every page of the space is free, no other page is touched |
| PageTables.Memory.Setupkvm | xv6/vm.c:105-136 | a new space if and only if 65 pages are free, else 0 with nothing changed: each page of physical memory at KERNBASE above it, read-only where the kernel's text lies and else writable, the devices at their own addresses, nothing else, and no page for the user; never remaps |
| PageTables.Memory.AddPage | xv6/vm.c:332-338 | takes, fills and maps one page, or restores all but a page to be given back |
| PageTables.Memory.Allocuvm | xv6/vm.c:221-249 | a zeroed page, writable for the user, for each page that begins between the two sizes, if and only if there are enough free pages for them and for the tables missing, else 0 with every translation restored and every page returned but those of new tables |
| PageTables.Memory.Copyuvm | xv6/vm.c:315-345 | a child with equal bytes and flags in pages of its own below the parent's size, above it the kernel's part, none of it the user's, and the parent untouched, if and only if there are enough free pages, counted exactly; else 0 with nothing changed |
| BufferSpec.ToFrontPermutes | xv6/bio.c:130-138 | moving a buffer to the front permutes the list |
| BufferSpec.GetKeepsInv | xv6/bio.c:61-93 | bget's choice, cached or recycled, keeps the invariant |
| BufferSpec.UnrefKeepsInv | xv6/bio.c:128-140 | dropping a reference keeps it |
| BufferSpec.AccessKeepsInv | xv6/bio.c:96-126 | so does locking, loading, changing, writing, pinning and unlocking |
| BufferSpec.StepKeepsInv | xv6/bio.c:61-141 | every step of every access keeps: one buffer per block, counted references, one holder, valid buffers current |
| BufferSpec.CacheIsAStore | xv6/bio.c:96-106 | in every run, whoever holds a loaded buffer sees the last contents anyone gave its block, holds it alone, and no other buffer has that block |
| BufferSpec.CacheIsConsistent | xv6/bio.c:58-142 | in every run the list holds each buffer once, no two buffers have the same block, and a loaded buffer that is neither dirty nor being changed equals its block on disk |
| LogCache.CacheIsTheDevice | xv6/bio.c:58-142 | in every run of the cache the device reached by its changes, writes and pins has the cache's disk on its disk and shows of each block what whoever reads it sees |
| LogCache.LogOnCache | xv6/log.c:80-276 | in every run in which a disk is changed by the log's calls only, the disk behind the cache is what the log's bwrites leave, in order, and readers see what the log's device shows |
| BufferSpec.DiskIsCurrent | xv6/bio.c:109-116 | in every run the disk has the last contents of every block, dirty buffers and buffers being changed apart |
| BufferSpec.NeverRecycled | xv6/bio.c:81-90 | a dirty or referenced buffer keeps its block in every step |
| BufferSpec.PanicExactly | xv6/bio.c:66-92 | bget panics if and only if the block is not cached and every buffer is dirty or referenced |
| BufferSpec.BreadGives | xv6/bio.c:61-106 | bread that finds the buffer's lock free holds the last contents anyone gave the block, from the disk if they were not cached |
| BufferSpec.BwriteReaches | xv6/bio.c:109-141 | a change and bwrite put the contents on the disk; brelse gives up the lock and the reference, and after the last one the buffer is first on the list |
| BufferCache.Bcache.constructor | xv6/bio.c:38-56 | the list holds every buffer once |
| BufferCache.Bcache.PushFront | xv6/bio.c:134-137 | splices a buffer in after the head |
| BufferCache.Bcache.Unlink | xv6/bio.c:132-133 | splices it out |
| BufferCache.Bcache.FindCached | xv6/bio.c:69-76 | the walk from the front finds the first buffer with the block |
| BufferCache.Bcache.FindIdle | xv6/bio.c:81-91 | the walk from the back finds the idle buffer after which no other is idle, or none because none is |
| BufferCache.Bcache.Bget | xv6/bio.c:66-92 | a cached block's buffer gets one more reference; else the idle buffer nearest the end of the list gets the block, not loaded, and one reference; None, the panic, only with no buffer idle |
| BufferCache.Bcache.Brelse | xv6/bio.c:128-140 | one reference fewer; after the last one the buffer is first on the list and the others are in the order they were in |
| SleepWakeup.LocksKept | xv6/proc.c:428-451 | each spinlock belongs to the process whose program counter and channel say so, in every step |
| SleepWakeup.NoLostWakeupKept | xv6/proc.c:417-474 | every step keeps: whoever sleeps on a channel whose condition holds has a wakeup on that channel still to come |
| SleepWakeup.WakeupNeverLost | xv6/sleep1.p:72-133 | in every run of any number of processes and channels no wakeup is lost, whether wakeup comes before or after the release |
| SleepWakeup.StuckMeansDone | xv6/sleep1.p:72-133 | if nobody can move, nobody waits for a spinlock and the condition of every sleeper's channel is false |
| SleepWakeup.RunNeverDeadlocks | xv6/sleep1.p:72-133 | the same for every reachable state |
| SleepWakeup.AcquirerSteps | xv6/proc.c:417-454 | a process on its way through acquiring stays on its way, on the same channel, until it has found the count positive, lowered it in its own name, and returned with it; by no step does it come back otherwise |
| SleepWakeup.AcquireTakesOne | xv6/sleeplock.c:22-31 | in every run a process that starts to acquire and is idle later has taken one from the channel and then returned owning it, and was on its way until then |
| SleepWakeup.GiveWakesAll | xv6/sleeplock.c:33-41 | in every run a process that starts to release and is idle later has added one to the count and afterwards looked at every process, which then did not sleep on the channel |
| SleepWakeup.GiverComesNearer | xv6/proc.c:457-474 | every step of a process that releases brings it nearer to its return, and no step of another sets it back |
| SleepWakeup.SetsOut | xv6/proc.c:479-497 | what a process starts to do when it acquires, releases or keeps what it took, and that a kill ends a sleep |
| SleepWakeup.ExclusiveKept | xv6/sleeplock.c:22-42 | every step keeps a channel used as a sleep lock free, or owned by exactly the process it names |
| SleepWakeup.SleepLockWorks | xv6/sleeplock.c:22-53 | in every run, whatever happens on other channels, at most one process owns the lock, holdingsleep tells who, whoever sleeps on the lock while it is free has a wakeup still to come, and a free lock strands no waiter; whatever step comes next, a process on its way through acquiresleep comes back only as the owner, with the lock in its name |
| ProcSpec.AllocKeepsInv | xv6/proc.c:73-97 | taking a slot keeps the tree and gives a new pid |
| ProcSpec.ForkKeepsInv | xv6/proc.c:180-222 | so do the later steps of fork, failure included |
| ProcSpec.ForkMakesChild | xv6/proc.c:180-222 | a fork that nobody comes between leaves a runnable child of the caller, with a new pid, in the first unused slot and changes no other |
| ProcSpec.ForkUndone | xv6/proc.c:187-198 | one that fails leaves the slot unused again and changes no other |
| ProcSpec.ExitKeepsInv | xv6/proc.c:250-266 | exit leaves no child without a live parent and wakes whoever has to reap |
| ProcSpec.ReapKeepsInv | xv6/proc.c:283-300 | reaping a child keeps the tree |
| ProcSpec.DozeKeepsInv | xv6/proc.c:303-310 | falling asleep in wait happens only with a child and no zombie child |
| ProcSpec.SleepEnds | xv6/proc.c:417-497 | a sleep ends with a wakeup on its channel or a kill, which is remembered, and not with a wakeup on another |
| ProcSpec.StepKeepsInv | xv6/proc.c:180-312 | every step of every process keeps the tree, the pids apart and no wakeup of wait lost |
| ProcSpec.EveryoneHasAParent | xv6/proc.c:180-312 | in every run each started process but init has a live parent, and a process asleep in wait has a child and no zombie child |
| ProcSpec.ReapingReaps | xv6/proc.c:283-300 | a wait returns a zombie whose parent is the caller, and that pid is then reaped |
| ProcSpec.ReapedOnce | xv6/proc.c:273-312 | in every run no two waits return the same process |
| ProcTable.Ptable.Wakeup1 | xv6/proc.c:457-465 | wakes exactly the sleepers on the channel |
| ProcTable.Ptable.Allocproc | xv6/proc.c:79-90 | the first unused slot becomes an embryo with the next pid; none exactly when no slot is unused |
| ProcTable.Ptable.Exit | xv6/proc.c:250-265 | the caller is a zombie and its children are init's; its parent asleep in wait is awake, and init too if a child was a zombie; nobody else is woken and nothing else changes |
| ProcTable.Ptable.Wait | xv6/proc.c:279-310 | one pass reaps the first zombie child if and only if there is one; it sleeps if and only if there is none but there is a child and the caller is not killed; it gives up in all other cases; and what it does to the table in each |
| ProcTable.Ptable.Kill | xv6/proc.c:479-497 | marks the first process with the pid, ends its sleep, and changes nothing else; fails exactly when there is none |
| LinkSpec.StepKeepsInv | xv6/sysfile.c:118-283 | every step of link, unlink and create in any interleaving, with new entries in linked directories only, keeps: counts equal entries in linked directories, a directory is named only by its parent, removed ones are empty |
| LinkSpec.StepKeepsInvIff | xv6/sysfile.c:118-283 | a step keeps that if and only if it makes no entry in a removed directory |
| LinkTree.StepIsSoundIff | xv6/sysfile.c:118-283 | and so for counts and tree together |
| LinkTree.LinkedIffReachable | xv6/sysfile.c:118-283 | a directory counts as linked if and only if entries lead to it from the root |
| LinkTree.DirectoriesFormATree | xv6/sysfile.c:118-283 | in every run one entry leads to each directory that can be reached, in the one its ".." names, and none to the root |
| LinkSpec.EmptyNamedOnce | xv6/sysfile.c:211-216 | an empty directory other than root is named by its parent only |
| LinkSpec.UnlinkDirKeepsInv | xv6/sysfile.c:213-229 | removing a directory takes one link from it and one from its parent, and leaves the parent linked |
| LinkSpec.UnlinkFileKeepsInv | xv6/sysfile.c:207-229 | removing a file's name takes one link from it |
| LinkSpec.CreateDirKeepsInv | xv6/sysfile.c:260-278 | a new directory adds one link to its parent and has one |
| LinkSpec.CreateFileKeepsInv | xv6/sysfile.c:260-278 | a new file or device has one |
| LinkSpec.LinkKeepsInv | xv6/sysfile.c:140-151 | the entry of a link takes up the count added before |
| LinkSpec.BumpKeepsInv | xv6/sysfile.c:158-161 | counting up first and undoing on failure keep the counts |
| LinkTree.LinksAreCounted | xv6/sysfile.c:118-283 | in every run an inode with no call under way has as many links as entries name it in directories that can be reached from the root, its own "." not counted |
| LinkTree.UnlinkNeverPanics | xv6/sysfile.c:211-212 | in every run what unlink finds has a positive count |
| LinkTree.CreateCountsIff | xv6/sysfile.c:241-283 | what create makes, file or directory, is counted right if and only if the directory it is made in can still be reached |
| LinkTree.LinkCountsIff | xv6/sysfile.c:140-151 | a link is counted right if and only if the directory it goes into can still be reached |
| LinkTree.LastNameGone | xv6/sysfile.c:184-239 | unlinking the only name of a file that nobody has open frees its inode and clears the entry, and changes nothing else |
| LinkTree.RemovedDirectory | xv6/sysfile.c:241-283 | a run after which whatever is created in a removed directory is counted and cannot be reached |
| LinkCalls.Tree.constructor | xv6/mkfs.c:117-128 | the tree that mkfs leaves, with root its own parent |
| LinkCalls.Tree.Dirlookup | xv6/fs.c:524-548 | the first entry in use with the name |
| LinkCalls.Tree.Dirlink | xv6/fs.c:551-578 | refuses a name that is there; else the first free entry or the end takes it |
| LinkCalls.Tree.Isdirempty | xv6/sysfile.c:168-181 | true if and only if no entry after the dots is in use |
| LinkCalls.Tree.Link | xv6/sysfile.c:118-165 | exactly in the stated cases one more link and the first free entry of the directory, or one at its end, for the new name, everything else as it was; else nothing changed; counts and tree stay right if and only if the directory can be reached or nothing was linked |
| LinkCalls.Tree.Unlink | xv6/sysfile.c:184-239 | exactly in the stated cases the entry is cleared and one link goes, and one of the directory for a directory, everything else as it was; else nothing changed; counts and tree kept |
| LinkCalls.Tree.Create | xv6/sysfile.c:241-283 | the file of that name, or 0, with nothing changed; or a new inode of the kind asked for with one link, and its dots if it is a directory, in the first free entry or at the end, and one link more for the parent of a directory; counts and tree stay right if and only if the directory can be reached; a freed inode is met only through the ".." of a removed directory |
| Pipes.CountersTell | xv6/pipe.c:85-115 | the counters, though they wrap around, tell full from empty |
| Pipes.SameSlot | xv6/pipe.c:93-116 | wrapping around does not change the slot |
| Pipes.Pipe.constructor | xv6/pipe.c:33-36 | an empty pipe, open at both ends |
| Pipes.Pipe.Write | xv6/pipe.c:78-98 | stores the next bytes until all are stored or the pipe is full, then fails or sleeps exactly as stated |
| Pipes.Pipe.Read | xv6/pipe.c:100-121 | takes the oldest bytes, up to n or all there are; sleeps exactly on an empty pipe that may still be written |
| Pipes.Pipe.Close | xv6/pipe.c:59-75 | closes one end; the pipe is gone when both are |
| Pipes.Run | xv6/pipe.c:78-121 | in every interleaving at the sleep points what readers get is a prefix of what writers store, at most 512 bytes behind |
| ShellSpec.LexFindsWords | xv6/sh.c:265-308 | the tokens of a line contain each of its words once, and no other word |
| ShellSpec.LineUses | xv6/sh.c:344-446 | a derived command refers to each word as often as its tokens do |
| ShellSpec.LineOnce | xv6/sh.c:327-342 | a command accepted for a line has every word of the line exactly once |
| ShellSpec.StringsIntact | xv6/sh.c:448-493 | with a NUL at the end of each of its strings every string reads as it stood in the line |
| ShellMeaning.LineAsks | xv6/sh.c:374-397 | a derived command has a redirection if and only if the line asks for it: its file is the word right after <, > or >>, for reading on descriptor 0 if that is < and for writing on 1 if not |
| ShellMeaning.RedirsInside | xv6/sh.c:374-397 | redirections enclose a command in the order in which they come, the first one innermost |
| ShellMeaning.LinePrints | xv6/sh.c:344-446 | any command with fewer than ten arguments each can be written as a line, with parentheses where they are needed, that derives it: pipes bind tighter than &, & tighter than ;, and both sides keep their place |
| ShellMeaning.PrintedIsParsed | xv6/sh.c:344-446 | such commands, and no others, are what lines derive |
| ShellUnique.SimpleDone | xv6/sh.c:430-442 | arguments and redirections end at the first token that can follow a command, and nowhere else |
| ShellUnique.SimpleTooMany | xv6/sh.c:438-440 | ten arguments are too many however the line goes on |
| ShellUnique.BlockDone | xv6/sh.c:399-413 | a block ends after the last redirection that follows it, and nowhere else |
| ShellUnique.BlockUnfinished | xv6/sh.c:382-383 | a redirection without a file after a block makes the block underivable |
| ShellUnique.PipeGoesOn | xv6/sh.c:366-370 | a command before a bar is followed by the only pipeline after it |
| ShellUnique.AmpDone | xv6/sh.c:349-352 | a pipeline takes all the &s after it |
| ShellUnique.LineGoesOn | xv6/sh.c:354-357 | a command before a semicolon is followed by the only line after it |
| ShellParser.Parser.Scan | xv6/sh.c:276-300 | the token at a place and its end, for each first character: the symbols, >> as one, and else a word up to the next blank or symbol |
| ShellParser.Parser.Gettoken | xv6/sh.c:265-308 | the next token of the line, its stretch, and the cursor after it |
| ShellParser.Parser.Peek | xv6/sh.c:310-320 | skips blanks only, and tells what the next token starts with |
| ShellParser.Parser.Parseredirs | xv6/sh.c:374-397 | the command inside all the redirections that follow, the first one innermost: each with the word after its symbol as file, for reading on descriptor 0 if the symbol is < and for writing on 1 if not; fails exactly at one without a file |
| ShellParser.Parser.Parseline | xv6/sh.c:344-359 | the tokens consumed derive the command, as a line, and no other command can be read there; on failure none can |
| ShellParser.Parser.Parseamps | xv6/sh.c:349-353 | the same, as a pipeline with any number of & after it |
| ShellParser.Parser.Parsepipe | xv6/sh.c:361-372 | the same, as a pipeline |
| ShellParser.Parser.Parseblock | xv6/sh.c:399-413 | the same, as a block in parentheses |
| ShellParser.Parser.Parseexec | xv6/sh.c:415-446 | the same, as a block or a simple command |
| ShellParser.Parser.Parsesimple | xv6/sh.c:426-445 | the same, as arguments and redirections, at most nine arguments |
| ShellParser.Parser.Nulterminate | xv6/sh.c:448-493 | a NUL at the end of each string of the command and nowhere else |
| ShellParser.Parser.Parsecmd | xv6/sh.c:327-342 | terminates on every line, and returns a command if and only if the line derives it, so that no line derives two; an accepted line is consumed to its end, has each word in the command once, and every string reads as it stood; a redirection is in the command if and only if two tokens of the line ask for it, < for reading on descriptor 0, > and >> for writing on 1 |
| Regexp.MatchesStar | xv6/grep.c:98-106 | a starred item matches if and only if some number of characters does |
| Regexp.MatchesOne | xv6/grep.c:93-95 | one character matches if and only if it fits and the rest does |
| Regexp.MatchesEnd | xv6/grep.c:91-92 | a final dollar matches the end only |
| Regexp.Match | xv6/grep.c:72-82 | true if and only if the pattern, by its declarative meaning, occurs in the text |
| Regexp.Matchhere | xv6/grep.c:84-96 | true if and only if it matches at the start |
| Regexp.Matchstar | xv6/grep.c:98-106 | true if and only if some number of the character and then the pattern match at the start |
| Regexp.PlainMatches | xv6/grep.c:72-96 | a pattern of characters and dots matches exactly the texts in which it occurs, dots standing for anything |
| Regexp.StarMatches | xv6/grep.c:84-106 | between ^ and $ a starred character matches exactly the texts made of it |

## Left out

- Hardware: drivers, boot code, interrupts, segments, context switches; a block transfer is one atomic step,
  and writes reach the disk in program order, none of them torn.
- Spinlocks: acquire and release are atomic steps; sleep and wakeup are modelled down to them.
- The buffer cache appears in `FileSystem` as block contents (`blocks`); `LogCache` joins it to the log only.
- LogDevice.Log.LogWrite: one call runs to its end; that others can come between its test and its recording is in
  `LogReservation`.
- FileSystem.Fs.Writei: device inodes, which go to `devsw`.
- FileSystem.Fs.Readi: device inodes, as for Writei; and that fileread calls it outside any operation of the log, where
  taking a block for a hole is log_write's panic.
- The byte layout of inodes on disk.
- Mkfs.Image.Ialloc: with no inode left the source goes on to write past the inode blocks, and the model stops.
- iget, idup, ilock and iput: inode references and the inode cache; `LinkSpec` frees an inode when its count is 0.
- Path lookup (`namex`, `skipelem`): `LinkCalls` gets the inodes that the paths lead to, and names are already cut
  to 14 characters.
- LinkTree.LinksAreCounted: counts are unbounded; the source's are shorts, right as long as none reaches 32768.
- Umalloc.Heap.Malloc: asks for a request whose size in bytes fits a signed int, because sbrk takes one, and
  for memory from sbrk above all memory it gave before.
- PageTables.Memory.Allocuvm: asks for an unmapped range, where the source panics otherwise.
- PageTables.Memory.Copyuvm: asks for a mapped range, where the source panics otherwise; loaduvm, inituvm, copyout and
  exec are not modelled.
- ProcSpec.StepKeepsInv: pids are unbounded, and files, the working directory and the kernel stack of a process are not
  modelled.
- ShellParser.Parser.Parsecmd: which message the shell prints for a line it refuses; running commands is not modelled.
- Running out of blocks, inodes or buffers ends a run, as the source panics there.
- The line-buffering loop of grep, the other user programs, the console and printf.
- Scheduling: fairness and time; only safety and stranded waiters.

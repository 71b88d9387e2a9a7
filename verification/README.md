# A verified model of the kernel's storage stack, virtual memory and process table

This project models a small RISC-V kernel and proves what its layers promise one another. The
model has the form of the C code: a kernel table is a class whose fields its methods update
(`BCache`, `Log`, `Fs`, `Files`, `Memory`, `Table`, `Ring`, `Image`), a static array of structs is
one sequence per struct field, a pointer into it is an index, and each loop is a loop. The
specifications beside the methods are pure functions and predicates, and the lemmas about them say
what the methods mean.

**Storage.** A disk is a sequence of 1024-byte blocks. One transfer of `virtio_disk_rw` is one
atomic, durable step that leaves `b->disk == 0`; `Disk.hist` records every state the disk goes
through, and a crash may happen at any of them.

* `Bio` is the buffer cache over the circular list. Its ghost field `view` is the plain array of
  blocks that callers of `bread` see; the invariant `Coherent` says that block numbers from 1 on are
  cached at most once, that cached data is the view, and that a block whose view differs from the
  disk is held in a dirty or referenced buffer. `Lru` says that the list is a ring through all
  buffers, the most recently released first.
* `LogSpec` gives the disk states that a commit and a recovery go through and what a disk *stands
  for* (`Home`: the home blocks after the committed log is replayed). `Reservation` is the space
  accounting of any number of interleaved operations of at most five distinct blocks each. `Log`
  proves the code of `kernel/log.c` against both: its writes are, in order, exactly those states.
* `FsSpec`, `FsState` and `Fs` have the inodes, the bitmap and the block map. `Consistent` says that
  each block is owned by at most one pointer of one inode and that the bitmap marks exactly the
  metadata and the owned blocks. `Content` is a file as a byte sequence, `Splice` a write to one.
* `Dir` reads a directory as a finite map from names to inode numbers (`DirMap`, `Listing`) and a
  path as its components (`Comps`); `Walk`, `NameI` and `NameIParent` are folds over them. `Tidy`
  says that live names are unique, that entries name allocated inodes, that a file has one name and
  that every allocated inode has a link.
* `NameOps`, `SysFile` and `SysProc` are the system calls. `Files.Valid` is the state between
  calls: a consistent and tidy file system, no open transaction, each inode-cache slot with exactly
  as many references as open files hold it, descriptors and open files in one-to-one
  correspondence. `Valid(w)` is the same but for slot `w`, which may hold an inode that has been
  freed. `Trail(h, from, g, imgs)` says that every disk state since `from` stands for one of the
  images `imgs`; `Since(h)` is the state that a call finds.
* `OpenUnlink` is one run from mkfs on: it unlinks a file that is open and ends in such a state, in
  which closing the file panics.
* `Layout` is the on-disk format as another reader has it, byte by byte, and proves that the model
  reads and writes it so. `NameLaws` says what paths, modes and directory sizes come to, and
  `ReadBack` what calls come to together: what is written under a name is read back under it.
* `Boot` goes from power-on to the state between calls, also after a crash anywhere in a system call
  and in the recoveries that follow it (`Reboot`), and `Mkfs` proves that the image mkfs makes can
  be mounted. `Survive` puts calls and crashes together: whatever is left of a disk can be mounted with
  all of a call or none of it, for sys_write with whole chunks; and what has been written and closed
  is read back after any crash (`WriteDurable`, `ReadAfterCrash`).

**Virtual memory.** `Vm` has physical memory as a map from page addresses to pages, the free list
threaded through the free pages, and the page tables inside those pages. `Trans` reads the
three-level tree of a root as a partial map from page numbers to entries (Sv39, section 4.4 of the
RISC-V Privileged Architecture); `Flat` is the memory that a user sees. `own` gives every page in
use one role (a table at one place of one tree, the frame of one user page, the trapframe of one
address space, a kernel stack, or a page in use since before the first process), so trees and frames
are disjoint by construction of the invariant. `UserMem` defines reads, writes and strings on flat
user memory. `Sound` is the invariant of free list and trees, which any use of
map_page keeps; `Private` says besides that user entries map pages taken for just that place and
other entries nothing but the trampoline and the own trapframe; `Valid` is both.

`ProcMem` has the memory of all processes: kernel stack, page table, trapframe and size of each. Its
invariant says that these are different pages for different processes, that all pages below the size
are mapped, and that nothing else is mapped but user pages and the two pages at the top. The calls
that create, copy, grow, collect and write processes keep it, in any order and number. A run is a
sequence of states (`IsRun`) in which each call has its effect (`Effect`); `Run` produces one, and
stops early only at a call that finds fewer free pages than it needs (`OutOfPages`).

`Sv39` is the address translation of the hardware, defined on memory alone; it shows that what the
hardware lets a process reach is the memory that the kernel means it to have.

**Processes.** `Proc` is the process table as a step machine over every interleaving of scheduler
rounds and kernel calls. `Inv` is: at most one RUNNING slot, the current one; live pids distinct; no
process asleep in wait while a child of it is a ZOMBIE. `ProcLaws` says what the calls do to the
fields of the table and, over whole runs, to parents, children and those killed.

**The kernel log.** `Klog` has the ring buffer and the digit conversion.

The main results are `LogSpec.CrashAtomicity`, `Reservation.RunReserved`, `SysProc.SysWrite` with
`SysProc.CrashLands`, `Boot.Reboot`, `SysFile.Files.SysOpen` and `SysFile.Files.SysUnlink` with
`NameOps.CreateVisible` and `NameOps.UnlinkVisible`, `Boot.Mount` with `Mkfs.Make`,
`Survive.OpenAtomic` and `Survive.UnlinkAtomic`, `Vm.Memory.MapPage`, `Vm.Memory.Fork`,
`ProcMem.Procs.Run` with `ProcMem.RunKept` and `Sv39.RunView`, `ReadBack.WriteThenRead`,
`Survive.WriteDurable` with `Survive.ReadAfterCrash`, `Proc.RunInv`, `Proc.Fairness`,
`Proc.CollectedOnce`, `ProcLaws.NoKidsIff` and `Klog.Ring.Dump`.

Where a method returns `ok`, false stands for a panic of the kernel or for a write through a null
page; the contract says when it can happen and, for system calls, that the disk is as it was. For
the file system that is an inode cache with fewer than two free slots, no free inode, a file or
directory at its limit, or fewer free blocks than the call may need; for memory, fewer free pages
than a stated count.

## Model

| member | source | states |
|---|---|---|
| Bytes.DecEnc | include/fs.h:42-49 | Little-endian fields as stored in blocks: decoding an encoded number that fits gives it back. |
| Bytes.EncDec | include/fs.h:42-49 | The other direction: a decoded field fits its width, and encoding it gives the bytes back. |
| Bytes.GetPutSame | include/fs.h:42-49 | A field written at an offset of a block reads back as written. |
| Bytes.LittleEndian | include/fs.h:42-49 | The low byte of a two, four or eight byte field comes first. |
| Bio.UnlinkRing | kernel/bio.c:82-83 | The two pointer assignments keep the list a circular doubly linked list that visits the same buffers in the same order, without the one taken out. |
| Bio.FrontRing | kernel/bio.c:85-88 | The four assignments that relink a buffer at the front keep the list circular, with that buffer first and the others in order. |
| Bio.OrderedFront | kernel/bio.c:78-89 | After a release the list is again ordered by last release to zero references. |
| Bio.RetagOk | kernel/bio.c:46-55 | Giving an unreferenced, clean buffer to a block that no buffer caches loses nothing that differs from the disk, and keeps block numbers unique. |
| Bio.LoadOk | kernel/bio.c:62-69 | Filling a buffer from the disk gives it the block that callers see. |
| Bio.ModifyOk | kernel/log.c:172-196 | Changing a referenced buffer changes the block array in that block and nowhere else. |
| Bio.WriteBackOk | kernel/bio.c:73-75 | Writing a referenced buffer out keeps the cache in step with the disk. |
| Bio.UnrefOk | kernel/bio.c:78-89 | A reference may be dropped if others remain, the buffer is dirty, or the block is on the disk as it is seen. |
| Bio.Disk.Write | kernel/virtio_disk.c:187-225 | A transfer is one durable step: one block changes and the new state is recorded. |
| Bio.BCache.InsertFront | kernel/bio.c:22-26 | A buffer outside the list becomes its first element; the rest of the list is as it was. |
| Bio.BCache.Unlink | kernel/bio.c:82-83 | A buffer leaves the list; the others keep their order. |
| Bio.BCache.Binit | kernel/bio.c:17-32 | All buffers are in the ring, unreferenced, invalid and clean. |
| Bio.BCache.constructor | kernel/bio.c:17-32 | A freshly started cache is coherent and shows the disk as it is. |
| Bio.BCache.Find | kernel/bio.c:37-43 | The forward walk finds the buffer of the block, or there is none. |
| Bio.BCache.Victim | kernel/bio.c:47-57 | The backward walk finds the least recently released buffer that may be recycled; it finds none only if there is none. |
| Bio.BCache.Bget | kernel/bio.c:34-59 | One more reference to the block's buffer if it is cached, else the least recently released recyclable buffer retagged and invalid; no other buffer changes. The panic "bget: no buffers" is not reached when a buffer is available. |
| Bio.BCache.Bread | kernel/bio.c:62-70 | The buffer holds what the block array has for the block; the array, the disk, and the tags of referenced and dirty buffers are as before. |
| Bio.BCache.Fill | kernel/fs.c:413-430 | An in-place change of a held buffer changes exactly those bytes of exactly that block of the array. |
| Bio.BCache.Bwrite | kernel/bio.c:73-75 | The block as seen reaches the disk in one step, and the buffer is clean. |
| Bio.BCache.MarkDirty | kernel/log.c:191-193 | Only the dirty mark of the held buffer changes. |
| Bio.BCache.Brelse | kernel/bio.c:78-89 | One reference less; at zero the buffer moves to the front of the list with a new time stamp, otherwise list and stamps stay. |
| LogSpec.HeaderRoundTrip | kernel/log.c:61-80 | The list that write_head stores is the list that read_head reads. |
| LogSpec.HomeLow | kernel/fs.c:25-50 | A block that no operation logs, such as the superblock, is on the disk as it is, so it may be read before the log is recovered. |
| LogSpec.InstallSafe | kernel/log.c:39-59 | After any number of writes of install_trans the disk stands for the same contents, with the header untouched: installing again is harmless. |
| LogSpec.RecoverySafe | kernel/log.c:82-90 | Every disk state of a recovery stands for the same contents; at its end the home blocks are those contents and the header count is 0. |
| LogSpec.CutRecoveriesSafe | kernel/log.c:82-90 | The same for any number of recoveries in a row, each cut after any number of its writes. |
| LogSpec.CommitAtomic | kernel/log.c:107-115 | Each disk state of a commit stands for all the old contents before the header write, and for all the new ones from it on. |
| LogSpec.CommitPoint | kernel/log.c:71-80 | The header write is the commit point: right after it, replaying the log gives the new contents. |
| LogSpec.CommitEnd | kernel/log.c:107-115 | A commit that runs to its end has the new contents home and an empty log. |
| LogSpec.CrashAtomicity | kernel/log.c:39-115 | A commit cut after any number of writes, then recovery cut and restarted any number of times: once recovery finishes, the home blocks are all old or all new, as the header write was or was not reached, and the log is empty. |
| LogSpec.CommitTrail | kernel/log.c:107-115 | Every disk state of a commit stands for the contents before it or for those after it. |
| LogSpec.TrailSince | kernel/log.c:107-115 | The state that a call finds on the disk belongs to the trail, so a crash before the call's first disk write is covered. |
| Reservation.StepReserved | kernel/log.c:131-196 | Each begin, log_write and end keeps: logged blocks plus what open operations may still add stays at most size - 5, without duplicates; so log_write never meets "log: too big". |
| Reservation.RunReserved | kernel/log.c:131-196 | The same over every interleaving of operations that log at most five distinct blocks each. |
| Log.CanRecycle | kernel/bio.c:46-57 | With fewer dirty and held blocks than buffers, bget finds a buffer to recycle. |
| Log.HeldSpare | kernel/bio.c:46-57 | Whatever the log holds within its reservation, four buffers may be held at once (bmap and itrunc hold the indirect block while balloc and bfree hold another) and bget still finds one. |
| Log.Log.WriteHead | kernel/log.c:71-80 | One disk write: the header block gets the count and the list. |
| Log.Log.LogOne | kernel/log.c:92-105 | One round copies the logged block as seen to its log slot, in one disk write. |
| Log.Log.InstallOne | kernel/log.c:39-59 | One round copies the log slot to its home block in one disk write, and its buffer is clean. |
| Log.Log.WriteLog | kernel/log.c:92-105 | The disk goes through exactly the states of the log-writing phase; the home blocks as seen do not change. |
| Log.Log.InstallTrans | kernel/log.c:39-59 | The disk goes through exactly the states of the install phase; no dirty buffer is left. |
| Log.Log.Commit | kernel/log.c:107-115 | The disk goes through exactly the states of `CommitTrace`, and the log is empty in memory. |
| Log.Log.CommitAll | kernel/log.c:107-115 | From outside: the contents as seen become durable, and nothing that callers see changes. |
| Log.Log.ReadHead | kernel/log.c:61-69 | The list in memory is the one in the header block; nothing else changes. |
| Log.Log.Recover | kernel/log.c:82-90 | The disk goes through exactly the states of `RecoveryTrace`; what the kernel sees afterwards is what the disk stood for before. |
| Log.Log.constructor | kernel/log.c:117-129 | Starting on a disk in any state a crash leaves: the log is recovered and the kernel sees what that disk stood for. |
| Log.Log.BeginOp | kernel/log.c:131-144 | One more operation with nothing logged yet exactly if five blocks for it, five for each open one and five more fit beside those logged; otherwise nothing has changed and the caller must sleep. |
| Log.Log.LogWriteBuf | kernel/log.c:172-196 | Whatever other buffers are held: the block joins the list unless it is there (absorption), the buffer is dirty, nothing else changes, and no panic is reached. |
| Log.Log.ReadHeld | kernel/fs.c:214-223 | bread in the middle of an operation that holds up to three other blocks yields the block as seen and leaves those in their buffers; "bget: no buffers" is not reached. |
| Log.Log.UpdateHeld | kernel/fs.c:214-223 | bread, change, log_write and brelse while up to three other blocks stay held: exactly those bytes of that block change, and the block is charged to the operation. |
| Log.Log.UpdateAround | kernel/fs.c:214-223 | bmap's indirect branch holds the indirect block while balloc changes the bitmap and clears the new block: the effect is that of the three updates one after the other. |
| Log.Log.ReadBlock | kernel/bio.c:62-89 | bread and brelse yield the block as the open transactions see it, and change nothing. |
| Log.Log.UpdateBlock | kernel/log.c:172-196 | bread, a change of some bytes, log_write, brelse: exactly those bytes of that block change in what the kernel sees, and the block is charged to the operation. |
| Log.Log.EndOp | kernel/log.c:146-170 | The last operation out commits: the disk then stands for what the kernel sees, and every state on the way stood for the old or the new contents. Otherwise the disk is untouched. |
| FsSpec.EncAddrsAt | include/fs.h:48-48 | Element k of the address array is its k-th four bytes. |
| FsSpec.DinodeRoundTrip | kernel/fs.c:128-150 | What iupdate stores, ilock loads: the inode comes back. |
| FsSpec.WithBitAt | kernel/fs.c:63-66 | Setting or clearing one bit leaves the other bits. |
| FsSpec.UsedWithBit | kernel/fs.c:56-99 | Marking or clearing one block in the bitmap leaves the marks of all others. |
| Layout.SuperLayout | include/fs.h:22-31 | Which word of the superblock is which, byte by byte. |
| Layout.HeaderLayout | kernel/log.c:61-80 | The log header is the count and then the block numbers, four bytes each. |
| Layout.BitmapLayout | kernel/fs.c:56-99 | Block b is bit b % 8 of byte b / 8 of the bitmap, the low bit first. |
| Layout.InodeLayout | include/fs.h:42-49 | Inode i is at 64 * (i % 16) in block i / 16 of its region, its fields at fixed offsets. |
| Layout.FileLayout | kernel/fs.c:194-257 | What the model calls the type, links, size and contents of a file is what a reader of the raw image finds, who knows only this format: twelve pointers, and 256 more behind the thirteenth. |
| FsState.UnownedWrite | kernel/fs.c:56-84 | Writing a block that no pointer owns changes no pointer and no byte of any file. |
| FsState.LinkDirect | kernel/fs.c:198-212 | Linking a zeroed block as a direct block or as the indirect block keeps ownership exclusive and every file's bytes: it reads like the hole it fills. |
| FsState.LinkEntry | kernel/fs.c:214-223 | The same for an entry of the indirect block. |
| FsState.DataWrite | kernel/fs.c:259-287 | Overwriting a data block changes exactly the bytes of one block of one file. |
| FsState.DropAll | kernel/fs.c:437-462 | Dropping all pointers of an inode takes away exactly the blocks it owned. |
| FsState.BitsSet | kernel/fs.c:56-84 | Marking a free block: it was a data block that nobody owned, and the bitmap stays exact. |
| FsState.BitsClear | kernel/fs.c:87-99 | Clearing a block in use: it was marked, and the bitmap stays exact. |
| FsState.FreeCount | kernel/fs.c:56-84 | Free and used data blocks are all data blocks, so the number of free blocks is known from what is owned. |
| FsState.GrowDirect | kernel/fs.c:198-212 | Allocating and linking a block in the inode keeps the file-system invariant and every file. |
| FsState.GrowEntry | kernel/fs.c:214-223 | The same behind the indirect block. |
| FsState.Updated | kernel/fs.c:413-430 | iupdate brings the one lagging inode on disk up to date, and no file reads differently. |
| FsState.ReadChunk | kernel/fs.c:230-257 | The part of a block that readi copies, zeros for a hole, is the file's next bytes. |
| FsState.WriteChunk | kernel/fs.c:259-287 | One round of writei keeps the invariant; exactly the first bytes of the source are in the file so far. |
| FsState.WroteContent | kernel/fs.c:259-287 | Once the size is set, the file is the old one overlaid or extended, and no other file changes. |
| FsState.MetaChange | kernel/fs.c:413-430 | Changing fields other than the pointers keeps the invariant and every file's bytes. |
| FsState.Claimed | kernel/fs.c:170-192 | Giving a free inode a type keeps the invariant and every file. |
| FsState.FreeNext | kernel/fs.c:437-462 | Each block that itrunc comes to is still marked in use, so bfree never meets a free block. |
| FsState.Truncated | kernel/fs.c:437-462 | After itrunc the inode owns nothing and every other file is untouched. |
| Dir.LinkMap | kernel/fs.c:321-347 | Writing an entry into a dead slot, or at the end, adds exactly that name to the directory's map and keeps names unique. |
| Dir.UnlinkMap | kernel/sysfile.c:304-307 | Zeroing a live entry removes exactly its name. |
| Dir.SameMap | kernel/fs.c:290-319 | The map is determined by the live entries. |
| Dir.KeyDiffer | kernel/fs.c:290-319 | Name fields that differ before a NUL are different names. |
| Dir.MatchName | kernel/fs.c:290-319 | The byte loop of dirlookup decides equality of names up to NUL or 14 bytes. |
| Dir.Hit | kernel/fs.c:290-319 | A live entry is what the directory's map has for its name. |
| Dir.Miss | kernel/fs.c:290-319 | Without a live entry of that name the map does not have it. |
| Dir.EntryLayout | include/fs.h:90-100 | The number of a directory entry is its first two bytes, the name the other fourteen. |
| Dir.EnteredSize | kernel/fs.c:331-344 | A directory gains sixteen bytes by a new name if all its entries are live, and none otherwise. |
| Dir.ErasedDead | kernel/sysfile.c:304-307 | An erased entry is a dead one, to be used again. |
| Dir.TidyLink | kernel/fs.c:321-347 | Naming a nameless file keeps the directory tree in order, adds that one name, and sets the first dead entry or the next. |
| Dir.TidyUnlink | kernel/sysfile.c:304-307 | Removing the entry of a file keeps the tree in order, zeroes exactly its sixteen bytes, and no entry names the file any more. |
| Dir.TidyRetype | kernel/fs.c:170-192 | Claiming a free inode, or freeing a nameless file, keeps the tree in order and every other directory. |
| Dir.TidyFile | kernel/fs.c:259-287 | Writing a plain file changes no directory. |
| Dir.WalkParentIs | kernel/fs.c:371-410 | Stopping one component early is the walk over all components but the last, if that ends in a directory. |
| Dir.ParentIs | kernel/fs.c:408-410 | nameiparent of a path is that walk from the root. |
| Dir.WalkStep | kernel/fs.c:371-401 | One round of namex is one step of the fold; a non-directory ends it. |
| Dir.SkipSkip | kernel/fs.c:349-369 | Leading slashes do not matter to a path. |
| Dir.CompsAt | kernel/fs.c:349-369 | The positions that skipelem computes split off exactly the first non-empty component. |
| Dir.SkipSlashes | kernel/fs.c:350-351 | The loop stops at the first byte that is no slash. |
| Dir.SkipName | kernel/fs.c:354-356 | The loop stops at the end of the component. |
| Dir.CopyName | kernel/fs.c:357-365 | The buffer then holds the component cut to 14 bytes, whatever it held before. |
| Dir.SkipElem | kernel/fs.c:349-369 | It yields the first component cut to 14 bytes and the rest of the path, or says that there is none. |
| Fs.TakenOk | kernel/fs.c:102-125 | Taking one more reference, or a free slot, keeps at most one referenced slot per inode and the counts right. |
| Fs.DroppedOk | kernel/fs.c:159-167 | Dropping a reference keeps them. |
| Fs.HandOver | kernel/fs.c:371-401 | Taking the child and dropping the parent leaves exactly one extra reference, to the child. |
| Fs.GiveBack | kernel/fs.c:432-435 | Dropping the one extra reference restores every count. |
| Fs.TightOne | kernel/fs.c:102-125 | "iget: no inodes" with one reference more than at the start of a call means that at most one slot was free then. |
| Fs.FootCard | kernel/fs.c:259-287 | The blocks a write to one file can log besides its data are at most the bitmap, the inode's block and the indirect block. |
| Fs.Room | kernel/log.c:172-196 | Within a footprint of five blocks every log_write is within the operation's budget. |
| Fs.Fs.constructor | kernel/fs.c:35-53 | On a consistent image, an empty inode cache satisfies the invariant of the running file system. |
| Fs.Fs.Balloc | kernel/fs.c:56-84 | The first free block, marked and zeroed, all else unchanged; a panic exactly when no block is free. |
| Fs.Fs.ShortIs | kernel/fs.c:56-84 | Free blocks and owned blocks make up the data blocks, in every state of the running file system. |
| Fs.Fs.AllInUse | kernel/fs.c:56-84 | "balloc: out of blocks" means that every data block is owned. |
| Fs.Fs.Bfree | kernel/fs.c:87-99 | Exactly that block is unmarked; its panic is not reached for a block in use. |
| Fs.Fs.Iget | kernel/fs.c:102-125 | One more reference to the inode in its one slot; a panic exactly when it needs a slot and none is free. |
| Fs.Fs.Ilock | kernel/fs.c:128-150 | The slot then holds the inode as on disk; "ilock: no type" is not reached. |
| Fs.Fs.Iput | kernel/fs.c:159-167 | One reference less; the freeing branch runs only for the last reference to an inode without links, and changes no file. |
| Fs.Fs.FreesIs | kernel/fs.c:159-167 | Of the loaded inodes, iput frees exactly those without links to which there is no other reference. |
| Fs.Fs.FreeInode | kernel/fs.c:159-167 | The freeing branch of iput writes the inode back and invalidates the slot; no file reads differently. |
| Fs.Fs.Ialloc | kernel/fs.c:170-192 | The first free inode gets the type and one reference; a panic only when no inode or no slot is free. |
| Fs.Fs.BmapInode | kernel/fs.c:198-212 | The pointer in the inode, allocated if wanted and missing, within the block budget. |
| Fs.Fs.BmapEntry | kernel/fs.c:214-223 | The same for an entry of the indirect block. |
| Fs.Fs.Bmap | kernel/fs.c:194-228 | The block that holds file block bn; every file reads as before; without `create` nothing changes and 0 stands for a hole; a panic only past MAXFILE or when no block is free. |
| Fs.Fs.Readi | kernel/fs.c:230-257 | Exactly the file's bytes from the offset, clipped at its end, across direct and indirect blocks and holes; -1 exactly when the offset is past the end or the 32-bit sum wraps. |
| Fs.Fs.Writei | kernel/fs.c:259-287 | All the bytes go to the file at the offset, the size grows as needed, every other byte of every file stays; -1, and no change, exactly when the offset is past the end or the sum wraps; the blocks logged stay within the budget; a panic only past MAXFILE or with fewer free blocks than it touches, and one for the indirect block. |
| Fs.Fs.Iupdate | kernel/fs.c:413-430 | The inode on disk is brought up to date; only its block is logged. |
| Fs.Fs.Itrunc | kernel/fs.c:437-462 | The file is empty and owns nothing, all other files are untouched; at most the bitmap and the inode's block are logged. |
| Fs.Fs.Iunlockput | kernel/fs.c:432-435 | One reference less, and the invariant holds. |
| Fs.Fs.Dirlookup | kernel/fs.c:290-319 | The answer of the directory's map, with a reference to the inode and the offset of the entry; the null result exactly for a name not in the map. |
| Fs.Fs.DeadEntry | kernel/fs.c:331-337 | The search stops at the first dead entry, every one before it being live, and at the end of the directory only if all are live. |
| Fs.Fs.AddEntry | kernel/fs.c:339-344 | The directory's map gains exactly that name, at the first dead entry or, if none is dead, at the end; no other byte of the directory changes; it panics for want of room only if the directory has no dead entry and cannot grow. |
| Fs.Fs.Dirlink | kernel/fs.c:321-347 | -1, and no change, when the name is there; otherwise the map gains exactly it, the directory growing by one entry only if it has no dead one, every reference taken is given back, and at most one block of budget is used; a panic only for a directory without a dead entry at the limit, two blocks, or a slot for the inode found. |
| Fs.Fs.Descend | kernel/fs.c:380-394 | One round of namex: the next inode of the fold with its reference in place of the parent's, or all references given back. |
| Fs.Fs.Namex | kernel/fs.c:371-401 | The fold over the path's components (all but the last for nameiparent, with the last one's name), with exactly one extra reference, or the null result with none; it always ends; a panic only with at most one slot free. |
| Fs.Fs.SetMeta | kernel/fs.c:413-430 | Assigned fields and iupdate: exactly that inode changes, and no file's bytes. |
| Fs.Fs.ZeroEntry | kernel/sysfile.c:304-307 | The name is gone from the directory's map, its entry is sixteen zero bytes and every other byte stays, and no entry names the file. |
| Fs.Fs.FreeFile | kernel/sysfile.c:315-320 | The file is emptied and its inode free; all it owned is free again; nothing else changes. |
| Fs.Fs.Release | kernel/sysfile.c:315-322 | A file whose last link is gone is freed and its slot dropped; one with links stays. The state between calls holds afterwards if and only if the file keeps a link or nobody else holds it. |
| Fs.Fs.LogEmpty | kernel/log.c:107-115 | Except while a commit runs, the log on disk is empty, so a crash leaves what was last committed. |
| Fs.Fs.Begin | kernel/log.c:131-144 | With no other operation open the guard of begin_op is passed at once. |
| Fs.Fs.End | kernel/log.c:146-170 | The image built becomes durable; every disk state on the way stands for the image before or for this one. |
| NameOps.FirstLink | kernel/sysfile.c:102-104 | The claimed inode gets its one link; no directory changes. |
| NameOps.EnterFile | kernel/sysfile.c:107-113 | The new file's name is in the directory, the directory's reference is given back and the file's is kept. |
| NameOps.NewFile | kernel/sysfile.c:95-113 | A new empty file, the first free inode, is linked under the name; no other file or directory changes; a panic only without a free inode, slot, directory entry or two blocks. |
| NameOps.Admit | kernel/sysfile.c:88-127 | A directory is turned away when opened for writing, with its reference given back; otherwise the inode is loaded. |
| NameOps.OpenCreate | kernel/sysfile.c:74-114 | With O_CREATE: refused, the existing inode, or a new file, exactly as the path and mode decide, with one reference on success and none otherwise; a panic only of a want that the decision needs: slots, and for a new file an inode, a dead entry or room to grow in the directory, and two blocks. |
| NameOps.OpenOnly | kernel/sysfile.c:115-128 | The same without O_CREATE; nothing on disk changes, and a panic needs an inode cache with at most one free slot. |
| NameOps.CreatedIs | kernel/sysfile.c:95-113 | Claiming, linking and naming together are the creation of one empty file. |
| NameOps.DropLink | kernel/sysfile.c:309-311 | One link less on exactly that inode; directories stay. |
| NameOps.ReleaseBoth | kernel/sysfile.c:313-322 | Both inodes are given back, and a file without links is freed, whether or not it is open; the state between calls is kept exactly if it has links or nobody holds it. |
| NameOps.Unname | kernel/sysfile.c:304-322 | The entry, the link, and the file if that was its last link, are gone; all references are given back; a panic only without free blocks. |
| NameOps.UnlinkedIs | kernel/sysfile.c:304-322 | The stages together are the removal of one name and, with its last link, of one file. |
| NameOps.DotsKey | kernel/sysfile.c:278-283 | The byte tests recognise exactly the names "." and "..". |
| NameOps.UnlinkIn | kernel/sysfile.c:285-322 | -1, and no change, for a missing name or a directory; otherwise the file is unlinked, open or not, and the state between calls is kept if and only if it keeps a link or is not open. |
| NameOps.UnlinkPath | kernel/sysfile.c:270-322 | The path's file is unlinked, or -1 with no change, exactly as path resolution decides, with that condition for the state afterwards; a panic only with at most one free slot or fewer than two free blocks. |
| NameOps.PathLast | kernel/fs.c:371-401 | A path that is not the root is one lookup of its last component in what the rest resolves to. |
| NameOps.CreateWalk | kernel/fs.c:371-401 | After a creation every walk ends where it did, except that some which ended nowhere end at the new file. |
| NameOps.CreateVisible | kernel/sysfile.c:74-114 | After a creation a path resolves to the new file if and only if it ends in that name in that directory, and then it did not resolve before; every other path resolves as before, or fails as before. |
| NameOps.UnlinkWalk | kernel/sysfile.c:304-322 | After an unlink every walk ends where it did, except those that ended at the file and now end nowhere. |
| NameOps.UnlinkVisible | kernel/sysfile.c:255-326 | After an unlink exactly the paths that end in that name in that directory resolve no more, however they are spelled; every other path resolves as before, or fails as before. |
| NameLaws.PathIs | kernel/fs.c:349-369 | A path is the names between its slashes, each cut to fourteen bytes: the empty path has none, a trailing slash adds none, and a slash and a name add that name. |
| NameLaws.ModeBits | include/fs.h:118-123 | O_WRONLY is bit 0 of the mode, O_RDWR bit 1 and O_CREATE bit 9. |
| NameLaws.RootIs | kernel/fs.c:371-410 | A path of slashes alone stands for inode 1, the root, and has no parent. |
| NameLaws.ParentHas | kernel/fs.c:371-410 | What a path stands for is what its parent directory has under its last name. |
| NameLaws.OpenDecides | kernel/sysfile.c:74-128 | What sys_open does, by what the path stands for: without O_CREATE it must stand for something, a directory only with mode 0; with O_CREATE the parent must be a directory, what exists is opened unless it is a directory to be written, and a file is made only if there is nothing. |
| NameLaws.UnlinkDecides | kernel/sysfile.c:270-303 | sys_unlink removes what the path stands for unless that is nothing, a directory, or named "." or "..". |
| NameLaws.CreatedSize | kernel/fs.c:331-344 | Making a file makes its directory larger, by one entry, exactly if that has no dead entry. |
| NameLaws.CreatedFile | kernel/sysfile.c:95-105 | A new file is a regular one of no bytes and no blocks with one link. |
| NameLaws.RoomAfterUnlink | kernel/fs.c:331-344 | Making a file after unlinking one in the same directory does not make the directory larger: doing so in turn never fills it. |
| UserMem.StoredAt | kernel/vm.c:182-201 | After a store each byte of the range is the source's byte, and every other byte and what is accessible stay. |
| UserMem.StoredConcat | kernel/vm.c:182-201 | Storing in two pieces is storing the whole. |
| UserMem.StoreFetch | kernel/vm.c:125-201 | A store followed by a fetch of the same range gives the bytes back. |
| UserMem.StrIs | kernel/vm.c:147-179 | A string is found within the limit exactly when an accessible NUL comes first; it is the bytes before the first NUL. |
| SysFile.OpenOk | kernel/sysfile.c:147-151 | Filling in a free file entry keeps: each inode slot has as many references as open files hold it. |
| SysFile.CloseOk | kernel/file.c:46-59 | Closing keeps it. |
| SysFile.KeepOk | kernel/sysfile.c:58-158 | A call that gives back every reference it took keeps it. |
| SysFile.OpenedIs | kernel/sysfile.c:130-153 | What the end of sys_open puts into file structure and descriptor, field by field and mode bit by mode bit; nothing else changes. |
| SysFile.ClosedIs | kernel/file.c:46-59 | What closing leaves: descriptor and file structure free, one reference less on the inode slot; nothing else changes. |
| SysFile.WriteFile | kernel/fs.c:259-287 | A write of at most a block to a plain file logs at most five blocks and keeps every invariant; the file is spliced, all others stay; a panic only past MAXFILE or short of the blocks it touches and one. |
| SysFile.Files.constructor | kernel/file.c:19-24 | The state between system calls holds at the start. |
| SysFile.Files.Filealloc | kernel/file.c:27-35 | The first free file entry gets one reference; the null result exactly when all are taken. |
| SysFile.Files.Fdalloc | kernel/sysfile.c:45-54 | The first free descriptor from 3 on; -1 exactly when all are taken. |
| SysFile.Files.Fileclose | kernel/file.c:46-59 | The entry is closed, and the last close gives the inode reference back; outside a transaction it panics exactly for the last reference to an inode without links. |
| SysFile.Files.SysClose | kernel/sysfile.c:161-175 | 0 exactly for an open descriptor, which is then free with its file structure, the slot of its inode having one reference less and no other file or descriptor changing; the invariants hold. Its iput runs outside a transaction, so it panics ("log: outside of trans") exactly when the file's inode has no link left and nobody else has it open, which only sys_unlink of an open file leaves behind. |
| SysFile.Files.Attach | kernel/sysfile.c:130-153 | File and descriptor are filled in, or both and the inode reference are given back; `SysFile.OpenedIs` says what is in the fields. |
| SysFile.Files.SysOpen | kernel/sysfile.c:58-158 | On every return path: the disk and directories as the path and mode decide, no reference leaked on failure, the transaction closed, every disk state stands for the image before or after, and at most two blocks are used. On success the lowest free descriptor from 3 on is of a file structure of its own that holds the inode at offset 0, readable exactly if bit 0 of the mode is clear and writable exactly if bit 0 or bit 1 is set; no other file or descriptor changes. A panic leaves the disk alone and comes only of a want that this path and mode can meet: slots in the inode cache, and for a new file an inode, a dead entry or room to grow in the directory, two blocks. |
| SysFile.Files.SysUnlink | kernel/sysfile.c:255-326 | sys_unlink of any file, open or not: removed entirely or -1 with no change, crash-atomically, no reference leaked. The state between calls holds afterwards if and only if the file keeps a link or was not open; if not, exactly one slot holds a freed inode. A panic needs an inode cache with at most one free slot or fewer than two free blocks. |
| SysFile.Files.Fileread | kernel/file.c:62-79 | The file's next bytes, clipped at its end, and the offset moved past them; -1 exactly when not readable or out of range, with no change. |
| SysFile.Files.Filewrite | kernel/file.c:82-98 | The file is spliced at the offset and the offset moved past it; -1 exactly when not writable or out of range, with no change; a panic as for `WriteFile`. |
| OpenUnlink.UnlinkOpen | kernel/sysfile.c:304-322 | The condition of sys_unlink is met by a run: mkfs, boot, sys_open of "/a" with O_CREATE and sys_unlink of it all succeed; the open file's slot holds a freed inode, so the state between calls is lost, and sys_close of that descriptor panics. |
| SysProc.SpliceSplice | kernel/sysproc.c:110-132 | Two writes in a row are one write of both. |
| SysProc.MoreChunks | kernel/sysproc.c:110-132 | If each snapshot holds a whole number of leading chunks, so does the next one. |
| SysProc.WriteRound | kernel/sysproc.c:110-132 | One round is one transaction: copyin, filewrite and end_op; every disk state stands for the image before or after; a panic leaves the disk alone and comes only when the chunk passes MAXFILE or fewer blocks are free than it touches, and one. |
| SysProc.WriteNext | kernel/sysproc.c:110-132 | A round with its account: one more snapshot with one more chunk, or nothing changed, which with the chunk accessible happens exactly if the file may not be written at its offset; a panic only when this chunk does not fit. |
| SysProc.WriteChunks | kernel/sysproc.c:110-132 | The bytes written are the user's, in whole 512-byte chunks, the last perhaps short; every disk state stands for one of the snapshots between chunks. If the file may be written at its offset the result is n exactly if all n bytes are accessible and -1 otherwise, and then the chunk after those written is the first that is not accessible; if it may not, nothing is written and the result is 0 or -1 as the first chunk is accessible or not. A panic only when the next chunk does not fit. |
| SysProc.WriteConsole | kernel/sysproc.c:86-101 | The bytes given to the console are the user's, all n of them and result n exactly if all are accessible; otherwise -1 after whole pieces of 128 bytes up to the first piece that is not. |
| SysProc.StandsNow | kernel/log.c:107-115 | Between calls the disk as it is stands for what the kernel sees. |
| SysProc.SysWrite | kernel/sysproc.c:73-134 | The whole call on every path: its snapshots, its exact result as for `WriteChunks` and `WriteConsole`, -1 for a negative count and for a descriptor that is not open, the offset moved past what was written, and the invariants between calls kept; a panic only when the next chunk passes MAXFILE or does not find its blocks. |
| SysProc.CrashLands | kernel/sysproc.c:110-132 | A crash anywhere in sys_write, from the state it finds on, and in recovery, cut and restarted any number of times: the recovered disk is one of the snapshots, down to every inode. So exactly some whole number of leading chunks was written and no other file changed. |
| SysProc.ReadRound | kernel/sysproc.c:160-172 | One round: fileread, then copyout of what it returned. |
| SysProc.ReadNext | kernel/sysproc.c:160-172 | A round with its account: what has been read so far is the leading part of the file from the offset, and it is in the user's memory. |
| SysProc.ReadChunks | kernel/sysproc.c:157-173 | The user's memory gets exactly the file's bytes at the offset, up to n or the end, and the offset moves past them; -1 exactly when some of them could not be stored, the bytes read then ending with the first chunk that is not all accessible. |
| SysProc.SysRead | kernel/sysproc.c:136-174 | The whole call on every path: what reaches the user's memory, the result, the offset moved past it; the file system is untouched. |
| ReadBack.OpenNames | kernel/sysfile.c:74-128 | Whatever sys_open has opened or made is what the path stands for afterwards. |
| ReadBack.WriteNames | kernel/sysproc.c:110-132 | Writing a file moves no name: every path stands for what it stood for. |
| ReadBack.WriteAll | kernel/sysproc.c:104-134 | sys_write to a file just opened for writing: all n bytes, after which the file begins with them. |
| ReadBack.WriteUnder | kernel/sysfile.c:58-175 | Open or make a file under a name, write n bytes, close it: the name then stands for a file that begins with them, and the inode cache has the references that it had. |
| ReadBack.ReadUnder | kernel/sysproc.c:136-174 | Open a name to read and read n bytes: the result is n and the bytes are those that the file begins with; a panic only with at most one slot of the inode cache free. |
| ReadBack.WriteThenRead | kernel/sysproc.c:73-174 | Open or make, write, close, open to read, read: the process gets back what it wrote, whatever the file held before; it stops short only where a single call does. |
| ReadBack.UnlinkNames | kernel/sysfile.c:304-322 | A name that sys_unlink has removed stood for a file and stands for nothing. |
| ReadBack.UnlinkThenOpen | kernel/sysfile.c:58-326 | sys_open without O_CREATE of a name just unlinked returns -1; the unlink fails only for nothing, a directory or a dot name. |
| Boot.ReadSuper | kernel/fs.c:25-32 | The superblock's fields as they are on disk; the cache holds no reference afterwards. |
| Boot.Mount | kernel/fs.c:35-53 | From any mountable disk, including any that a crash leaves: the log is recovered, and the state between system calls holds with the contents the disk stood for and nothing open; a panic exactly for a wrong magic number. |
| Boot.CrashMounts | kernel/log.c:82-129 | After a crash at any disk state of a trail, and recoveries cut any number of times, the disk can be mounted and stands for one of the snapshots, superblock, bitmap, inodes, data and directories. |
| Boot.Reboot | kernel/fs.c:35-53 | The kernel that starts on such a disk is in a valid state between system calls, with exactly the files of one of the snapshots. |
| Survive.AllSurvive | kernel/log.c:82-129 | Whatever any number of cut recoveries makes of any disk state of a trail, the disk can be mounted and holds exactly one of the snapshots. |
| Survive.OpenAtomic | kernel/sysfile.c:58-158 | A crash anywhere in sys_open, and in the recoveries after it: the disk can be mounted and holds all of the call or none of it. |
| Survive.UnlinkAtomic | kernel/sysfile.c:255-326 | The same for sys_unlink, of a file that is open as well. |
| Survive.WriteAtomic | kernel/sysproc.c:73-134 | The same for sys_write, with the file holding some whole number of leading chunks, and the result exact. |
| Survive.WriteDurable | kernel/sysproc.c:73-134 | Once a file has been written and closed, power may fail and recoveries be cut any number of times: the disk that is left can be mounted and has under that name a file that begins with what was written. |
| Survive.ReadAfterCrash | kernel/fs.c:35-53 | A machine that starts with such a disk, and a process that opens the name and reads, gets those bytes; this cannot fail. |
| Mkfs.SuperRoundTrip | mkfs/mkfs.c:216-220 | The superblock that mkfs writes is the one the kernel reads, with the number of data blocks beside it. |
| Mkfs.PackMark | mkfs/mkfs.c:104-106 | Marking in the array is marking in the bitmap block. |
| Mkfs.SuperBytesIs | mkfs/mkfs.c:174-220 | The words of the superblock: 1000 blocks, 954 for data, 200 inodes, 30 log blocks from block 2, inodes from 32, the bitmap in 45. |
| Mkfs.Image.Plan | mkfs/mkfs.c:174-220 | The zeroed image with its superblock and marked metadata has only free inodes and free data blocks. |
| Mkfs.Image.Winode | mkfs/mkfs.c:76-83 | Exactly that inode of the table changes, and no file's bytes. |
| Mkfs.Image.Rinode | mkfs/mkfs.c:85-90 | The inode as it is in the table. |
| Mkfs.Image.Ialloc | mkfs/mkfs.c:92-101 | The next free inode with the type and one link. |
| Mkfs.Image.Balloc | mkfs/mkfs.c:109-113 | The next block, marked in the bitmap. |
| Mkfs.Image.BlockFor | mkfs/mkfs.c:123-130 | The file block's pointer, allocated if missing; every file reads as before. |
| Mkfs.Image.Iappend | mkfs/mkfs.c:116-142 | The file's contents grow by exactly the data; it fails only when the file outgrows its direct blocks. |
| Mkfs.Image.WriteBitmap | mkfs/mkfs.c:145-160 | The array is the one bitmap block on disk. |
| Mkfs.RootDir | mkfs/mkfs.c:226-236 | The two entries are a well-formed directory whose map is "." and ".." to the root. |
| Mkfs.ImageMountable | mkfs/mkfs.c:188-239 | A finished image satisfies what mounting asks: exclusive ownership, an exact bitmap, a tidy tree, an empty log. |
| Mkfs.Make | mkfs/mkfs.c:162-243 | The whole run makes such an image of 1000 blocks, word by word the superblock of its layout, whose root directory holds "." and ".." alone, with all other inodes and all but two data blocks free. |
| Klog.DecimalValue | kernel/klog.c:75-92 | Decimal notation reads back as the number, in digits only, without a leading zero. |
| Klog.Digits64 | kernel/klog.c:75-92 | A 64-bit number has at most 20 digits: the buffer is large enough. |
| Klog.HoldsMore | kernel/klog.c:56-65 | One more character: the ring keeps the last LOG_BUFSIZE - 1 of the stream, over any number of wraps, and is full exactly when that many were put. |
| Klog.KeptOrLost | kernel/klog.c:56-65 | What the ring keeps and what it has lost add up to all that was put, and it keeps the last 4095 characters. |
| Klog.FillDigits | kernel/klog.c:75-92 | The loop leaves the number's digits in the buffer in reverse, without overrunning it. |
| Klog.Ring.Putc | kernel/klog.c:56-65 | The stream grows by the character; `dropped` grows by one exactly if 4095 characters or more had been put. |
| Klog.Ring.Puts | kernel/klog.c:68-72 | The stream grows by the string; `dropped` counts exactly what was lost. |
| Klog.Ring.PrintNum | kernel/klog.c:75-92 | The stream grows by the decimal digits of the number, for every 64-bit value; `dropped` counts exactly what was lost. |
| Klog.Ring.Dump | kernel/klog.c:195-206 | It prints exactly the last min(k, 4095) of the k characters put since the last clear. |
| Klog.Ring.Clear | kernel/klog.c:209-214 | The stream is empty but for the line that log_clear itself logs when logging is on; the count of dropped characters stays. |
| Proc.StepInv | kernel/proc.c:158-265 | Every step keeps: at most one RUNNING slot and it is current; live pids distinct; nobody asleep in wait with a zombie child. |
| Proc.RunInv | kernel/proc.c:158-347 | The invariant holds in every state of every run from boot. |
| Proc.ExitedInv | kernel/proc.c:206-222 | An exit keeps it: the parent is awake once the child is a ZOMBIE. |
| Proc.LeavesInv | kernel/proc.c:181-191 | Going to sleep or yielding keeps it; wait may sleep only when it has seen no zombie child. |
| Proc.Turn | kernel/proc.c:158-177 | Until a RUNNABLE slot is dispatched, every dispatch of another brings its turn closer and no step takes it further away. |
| Proc.Fairness | kernel/proc.c:158-177 | Over any stretch of any run in which a RUNNABLE slot is not dispatched, at most NPROC - 1 other dispatches happen. |
| Proc.ExitWakes | kernel/proc.c:206-222 | The exit of a child makes a parent asleep in wait RUNNABLE. |
| Proc.Collects | kernel/proc.c:225-265 | What wait returns is the pid and status of a zombie child of the caller, and no process has that pid afterwards. |
| Proc.ExitsOnce | kernel/proc.c:206-222 | In any run a pid exits at most once. |
| Proc.CollectedOnce | kernel/proc.c:225-265 | In any run no two waits collect the same pid. |
| Proc.CollectedExit | kernel/proc.c:225-265 | What a wait collects was left by an earlier exit with that pid and that status. |
| ProcLaws.ForkMakes | kernel/proc.c:268-332 | fork yields a child exactly if a slot is UNUSED and the pages are there. The child is in the first such slot, RUNNABLE, has the next pid and the caller as parent, and no other slot changes. A fork that fails makes nobody RUNNABLE and nobody a child. |
| ProcLaws.SpawnMakes | kernel/proc.c:85-156 | user_init makes a RUNNABLE process without a parent exactly if a slot is UNUSED and the pages are there. |
| ProcLaws.KillMarks | kernel/proc.c:335-347 | kill returns 0 exactly if some slot has the pid; the first such slot is marked and, if asleep, RUNNABLE; nothing else changes. |
| ProcLaws.WaitDecides | kernel/proc.c:225-265 | wait collects exactly if a child is a zombie, returns -1 exactly if there is no child, and otherwise sleeps; the collected slot is UNUSED, without pid and parent; no other slot changes. |
| ProcLaws.ExitLeaves | kernel/proc.c:206-222 | exit leaves a zombie with the status, whose pid and parent stay. |
| ProcLaws.GivesUp | kernel/proc.c:32-191 | yield leaves the caller RUNNABLE, sleep leaves it SLEEPING on its channel; nobody else is touched. |
| ProcLaws.ScanRuns | kernel/proc.c:158-177 | The scheduler looks at the slots round and round and runs the one it looks at exactly if that is RUNNABLE; a process that resumes has no channel. |
| ProcLaws.Sleeper | kernel/proc.c:181-203 | A sleeper gets up exactly by a wakeup of its channel, the exit of a process whose parent it sleeps on, or a kill that finds it; else it sleeps on. |
| ProcLaws.Undisturbed | kernel/proc.c:158-347 | Whoever neither runs nor sleeps is left alone by every call of others, but for a free slot being filled and a zombie being collected by its parent. |
| ProcLaws.KidThere | kernel/proc.c:268-332 | In any run, a forked child is there, with its forker as parent, until a wait collects its pid. |
| ProcLaws.KidForked | kernel/proc.c:268-332 | In any run, whoever has a parent was forked by it and has not been collected. |
| ProcLaws.NoKidsIff | kernel/proc.c:225-265 | In any run, wait returns -1 if and only if every child that the calling slot ever forked has been collected. |
| ProcLaws.MarkedIff | kernel/proc.c:335-347 | In any run, a slot is marked as killed if and only if some kill has ever found it: the mark outlives the process. |
| ProcLaws.BornKilledIff | kernel/proc.c:54-83 | So a new child starts out killed if and only if a kill has found its slot before, since alloc_process does not clear the mark. |
| ProcLaws.KillZero | kernel/proc.c:335-347 | That happens in a run: the first process calls kill(0), which finds the first free slot, and its next child is born killed. |
| Proc.Table.constructor | kernel/proc.c:47-51 | The table at boot is the initial state of the step machine. |
| Proc.Table.ScanOne | kernel/proc.c:158-177 | One round of the scheduler loop is the Scan step. |
| Proc.Table.DoYield | kernel/proc.c:32-37 | yield is the Yield step. |
| Proc.Table.DoSleep | kernel/proc.c:181-191 | sleep is the transition that the invariant is proved for. |
| Proc.Table.DoWakeup | kernel/proc.c:194-203 | The loop wakes exactly the slots that sleep on the channel; `ProcLaws.Sleeper` says what that is to a sleeper. |
| Proc.Table.DoExit | kernel/proc.c:206-222 | exit_process is the Exit step, for which `ProcLaws.ExitLeaves` and `Proc.ExitWakes` are proved. |
| Proc.Table.WaitRound | kernel/proc.c:225-265 | One round of wait_process is the Wait step with its result, which `ProcLaws.WaitDecides` and `ProcLaws.NoKidsIff` characterise. |
| Proc.Table.DoKill | kernel/proc.c:335-347 | kill is the Kill step, which `ProcLaws.KillMarks` characterises. |
| Proc.Table.AllocProcess | kernel/proc.c:54-83 | The first UNUSED slot gets the next pid; the null result when there is none or no frame; exactly those fields change. |
| Proc.Table.DoFork | kernel/proc.c:268-332 | fork's effect on the table is the Fork step, on success and on both failures, which `ProcLaws.ForkMakes` characterises. |
| Proc.Table.UserInit | kernel/proc.c:85-156 | user_init's effect on the table is the Spawn step, which `ProcLaws.SpawnMakes` characterises. |
| Vm.MakePteParts | include/riscv.h:30-33 | PTE_PA takes back the address that PA_PTE packed; the page number is from bit 10 on and the flags are the ten low bits, V among them. |
| Vm.VpnParts | include/riscv.h:39-40 | The indices are bits 12 to 20, 21 to 29 and 30 to 38 of the address, and make up the page number. |
| Vm.UpAligned | include/riscv.h:45-48 | Rounding up gives the next page boundary. |
| Vm.SeenAgain | kernel/vm.c:125-144 | From 2^39 on the same user memory is seen again. |
| Vm.LeafSet | kernel/vm.c:60-65 | Writing a leaf entry changes the translation of exactly one page number of one address space. |
| Vm.LinkTable | kernel/vm.c:12-31 | Linking a zeroed page as a table changes no translation in any address space and keeps the trees disjoint. |
| Vm.NewRoot | kernel/vm.c:50-54 | A zeroed page as a root is an address space without mappings; the others are untouched. |
| Vm.FramesApart | kernel/proc.c:277-306 | Two user mappings, of one or of two address spaces, never share a frame. |
| Vm.PrivateSet | kernel/vm.c:60-65 | Mapping a user page taken for that place, or the trampoline or the own trapframe, keeps every mapping private. |
| Vm.FullBound | kernel/proc.c:350-377 | A heap without holes has as many different frames as pages, so it cannot outgrow memory. |
| Vm.BelowTop | kernel/proc.c:350-377 | So the next page that sbrk maps lies below the trapframe, whatever size is asked for. |
| Vm.SpendStep | kernel/vm.c:12-31 | One page more costs itself and the tables missing for it, and a run of pages never costs more than its pages, one table for each 512 and one for each 512 times 512. |
| Vm.PageStore | kernel/vm.c:182-201 | Bytes stored in a user page change that user's memory in exactly that range, and nothing that any other address space or the kernel sees. |
| Vm.OtherFlat | kernel/vm.c:182-201 | A page in use for one address space is not seen from another. |
| Vm.StrStep | kernel/vm.c:147-179 | Each byte ends the string, fails it or goes on. |
| Vm.WidenedFlat | kernel/proc.c:54-83 | Whatever one address space gains, every other reads as before. |
| Vm.ForkCopied | kernel/proc.c:277-306 | Page by page: below the size the child sees what the parent saw, above it nothing. |
| Vm.ForkMapped | kernel/proc.c:277-306 | Below the size the child has pages with V, R, W, X and U exactly where the parent has pages, and above it only the two pages at the top. |
| Vm.ZerosSeen | kernel/proc.c:350-377 | The new pages read as zero and every other address as before. |
| Vm.Memory.PmmInit | kernel/pmm.c:25-30 | Every whole page from the end of the kernel to PHYSTOP is on the list, once. |
| Vm.Memory.FreePage | kernel/pmm.c:13-17 | A kernel stack, or any page before the first page table, goes to the front of the list; the list stays free of duplicates and of pages in use; no translation changes. A page that is mapped or a table cannot be freed. |
| Vm.Memory.AllocPage | kernel/pmm.c:36-41 | The first page of the list, which nobody had; 0 exactly when the list is empty. |
| Vm.Memory.WalkLookup | kernel/vm.c:37-44 | The leaf entry's address; null exactly when a table on the way is missing. |
| Vm.Memory.AddTable | kernel/vm.c:20-26 | A missing table is one new page; no translation changes; it goes wrong exactly when no page is free. |
| Vm.Memory.WalkCreate | kernel/vm.c:12-31 | The leaf entry's address; it takes exactly as many pages as tables are missing, changes no translation, and goes wrong exactly when there are fewer free pages. |
| Vm.Memory.CreatePagetable | kernel/vm.c:50-54 | A new root without mappings; no other address space changes. |
| Vm.Memory.MapPage | kernel/vm.c:60-65 | Exactly that page number of that address space now yields exactly that frame and those flags, whatever the frame; every other translates as before; it takes exactly the missing tables. Mappings stay private if they were and the frame may be mapped there. |
| Vm.Memory.UserPage | kernel/vm.c:130-134 | The check passes exactly when a user may access the address, and yields the frame in use for it. |
| Vm.Memory.Copyin | kernel/vm.c:125-144 | The user's bytes for any length, alignment and address; -1 exactly when one of them is not accessible. |
| Vm.Memory.Copyinstr | kernel/vm.c:147-179 | The string with its NUL, at any address; -1 exactly when no accessible NUL comes within the limit. |
| Vm.Memory.Copyout | kernel/vm.c:182-201 | For any length and alignment, user memory changes in exactly that range, up to the first inaccessible page; -1 exactly if there is one; no other address space and no kernel page changes. |
| Vm.Memory.AllocProcess | kernel/proc.c:54-83 | Kernel stack, trapframe and page table are new pages, five in all, which is exactly what success needs; the new address space maps the two pages at its top and nothing for the user; nobody else sees a difference. |
| Vm.Memory.CopyPage | kernel/proc.c:278-305 | One page: the child's page number is mapped V, R, W, X and U and reads like the parent's in a frame of its own, or is unmapped like the parent's; all other translations stay; each of the two failures exactly when so many pages are not free. |
| Vm.Memory.CopyPages | kernel/proc.c:277-306 | The same for all pages below the size; a page for each and the tables they can need are enough. |
| Vm.Memory.Fork | kernel/proc.c:268-332 | On success the child sees what the parent saw below its size, in frames of its own mapped V, R, W, X and U, and its trapframe is the parent's with a0 zero; every other address space is untouched. It succeeds when there are five pages, one for each page and the tables they can need. |
| Vm.Memory.GrowPage | kernel/proc.c:358-370 | One new zeroed page is mapped at the address with V, R, W, X and U; all other translations stay; each of the two failures exactly when so many pages are not free. |
| Vm.Memory.GrowPages | kernel/proc.c:358-370 | The loop: exactly the new pages are mapped, with those rights, and read as zero, all else as before; a page for each and the tables they can need are enough; a heap without holes stays so. |
| Vm.Memory.Sbrk | kernel/proc.c:350-377 | The new size, for any n, wrapping around below zero as the source's unsigned size does; the new pages read as zero and all else as before; on failure the old size; it succeeds when there is a page for each new one and the tables they can need. |
| ProcMem.SpaceStays | kernel/proc.c:54-377 | What another address space gains leaves a process's pages, mappings and size in order. |
| ProcMem.SizeBound | kernel/proc.c:350-377 | In order, a process ends below the trapframe and has only user pages below its size: what fork relies on. |
| ProcMem.LastUnused | kernel/proc.c:54-377 | The last byte of a process's address space is never for users. |
| ProcMem.Apart | kernel/proc.c:54-377 | The user pages of two processes are different pages, and none of them is free, a page table, a kernel stack or a trapframe. |
| ProcMem.ChildOk | kernel/proc.c:268-332 | The child's address space is in order, so that it can fork and grow in its turn, and its rights are known page by page. |
| ProcMem.GrownOk | kernel/proc.c:350-377 | So is an address space after sbrk. |
| ProcMem.GrewOk | kernel/proc.c:350-377 | What sbrk has done to memory: the new pages read as zero, or, when it fails, what was below the size stays; all is in order exactly if the size did not go below zero. |
| ProcMem.LoadedImage | kernel/proc.c:104-141 | Page by page, the first process sees its program, then zeros. |
| ProcMem.TopPerms | kernel/proc.c:71-72 | The trampoline is mapped V, R and X in the last page below 2^38, the trapframe V, R and W in the page before. |
| ProcMem.StartedSees | kernel/proc.c:104-147 | The first process byte by byte: the program, then zeros to the end of one page more than the program takes. |
| ProcMem.ForkedSees | kernel/proc.c:277-306 | The child byte by byte: the parent's memory up to the end of the page in which its size lies. |
| ProcMem.GrewSees | kernel/proc.c:350-370 | A grown heap byte by byte: zeros with all rights from the end of the page of the old size to that of the new, elsewhere what was there. |
| ProcMem.NeedSmall | kernel/proc.c:54-377 | What is enough, in numbers, below two megabytes: five pages for a process, one for each 4096 bytes it has or gains, one for the first stack, and two tables. |
| ProcMem.RunKept | kernel/proc.c:54-377 | In any run, whoever is not the object of a call has the same memory, rights and trapframe at the end, the memory has the same pages, and exactly those processes exist that were made and not waited for. |
| Sv39.FrameIs | include/riscv.h:30-33 | The page that PTE_PA yields is the one in bits 10 to 53 of the entry, as the hardware reads it. |
| Sv39.WalkIs | kernel/vm.c:12-65 | The hardware's own walk from a root, which knows memory only, finds for every address exactly the leaf that the kernel has mapped there. |
| Sv39.HardwareView | kernel/vm.c:125-201 | What the hardware lets a process load and store, at any 64-bit address, is exactly the memory that the kernel sees as its own, with the same bytes, in pages taken for just that place; it can execute what is mapped with X. |
| Sv39.RunView | kernel/proc.c:54-377 | The same of every process in every state of every run. |
| ProcMem.Procs.LoadPages | kernel/proc.c:104-126 | The loop of user_init loads exactly the program, padded with zeros, in pages of its own mapped V, R, W, X and U. |
| ProcMem.Procs.UserInit | kernel/proc.c:85-156 | The first process sees its program from address 0, with all rights, and a zeroed stack page above it that is not executable, starts at 0 with its stack pointer at its size, and is in order; it succeeds when its pages and tables are free. |
| ProcMem.Procs.Fork | kernel/proc.c:268-332 | The child's memory is the parent's below its size, with all rights on every page of it, and its trapframe the parent's but for a0; all processes, the child among them, are in order; nobody else sees a difference; it succeeds when its pages and tables are free. |
| ProcMem.Procs.Sbrk | kernel/proc.c:350-377 | Only the caller sees a difference; all processes are in order afterwards if and only if the size did not go below zero, which the source does not catch. |
| ProcMem.Procs.Collect | kernel/proc.c:238-252 | wait_process may free the child's kernel stack: nobody else uses it, and every other process is as it was. |
| ProcMem.Procs.Store | kernel/vm.c:182-201 | A store to one process, at any address, shows in its memory and in no other. |
| ProcMem.Procs.Step | kernel/proc.c:54-377 | One call has its effect on memory and processes; it succeeds when there are as many free pages as it needs. |
| ProcMem.Procs.Run | kernel/proc.c:54-377 | Any sequence of user_init, fork, sbrk, wait and stores goes through states in which processes are apart and in order and no page in use is on the free list, each call with its effect; it ends early only at a call that finds fewer free pages than it needs. |
| ProcMem.RunFromBoot | kernel/pmm.c:25-30 | The same from pmm_init on, with as many free pages as the memory has but for those that vm_init takes; memory is too small for a heap to reach the trapframe. |
| ProcMem.ShrinkBelow | kernel/proc.c:370-377 | The condition of sbrk is met by a run: after pmm_init and user_init, sbrk(-8192) of a process of one page succeeds, and the processes are not in order afterwards. |

## Left out

- The hardware: the virtio rings and the device's registers, UART, console, timer, trap entry, CSRs and assembly. A disk transfer is one step, a context switch is a step of the process machine.
- `vm_init`, `main` and system call dispatch: fixed sequences.
- `sys_fread` and `sys_fwrite` are not in the system call table; `destroy_pagetable` is empty in the source; `dump_pagetable` and the formatting of `klog` and `printf` only print.
- `dev` arguments: there is one device, ROOTDEV 0, and buffers are identified by block number from 1 on.
- bmap and itrunc hold the indirect block while balloc and bfree work; in `Fs` each access is a `ReadBlock` or `UpdateBlock` of its own, and `Log.Log.UpdateAround` shows that holding it makes no difference.
- The loops that copy bytes between buffers are one sequence operation each.
- 16-bit inode fields are read as unsigned, and `nextpid` and pids do not wrap.
- There is one bitmap block: `SbOk` asks for a file system of at most 8192 blocks; mkfs makes 1000.
- System call arguments (`argint`, `argaddr`, `argstr`) are parameters; a path is a byte string without NUL, or none when `argstr` fails.
- The name buffer on the stack of a system call is uninitialised in C; here it is a parameter with arbitrary contents.
- The process table (`Proc`), the memory of processes (`ProcMem`) and their open files (`SysFile`) are three models, each with its own slots; `killed` and the context are in none of them beyond what the rows say.
- Reclaiming the memory of an exited process and of a failed fork: the source leaks it.
- Log.Log.BeginOp: one round of its loop. A caller that must sleep does so with the log lock held, since `sleep` ignores its lock argument, so nothing is claimed about when it gets on; between system calls the guard is always met (`Fs.Fs.Begin`).
- Log.Log.LogWriteBuf: asks that the operation stays within five distinct blocks and logs neither the log region nor a block below `low` (any number from 1 on; the file system uses the first inode block), which is what callers promise; every caller in `Fs` is proved to keep to it.
- Fs.Fs.Writei: a write whose blocks fit the five-block budget of an operation, as all callers' writes do (a directory entry, or at most 512 bytes by sys_write); a longer one can meet "log: too big". It states when a panic can happen but not that it does happen then, because blocks already mapped need no allocation; the same holds for the calls built on it.
- Calls after sys_unlink of an open file, other than sys_close: the state between calls is lost (`OpenUnlink.UnlinkOpen`), and what a kernel does from there on is not described.
- SysFile.Files.Filewrite: at most 1024 bytes at a time, for the same reason; sys_write passes at most 512.
- Fs.Fs.Iput: asks for an open transaction only where the source frees the inode; elsewhere it runs outside one, as in sys_close. The freeing branch is for an inode whose type is zero already, which is the only kind without links that a call leaves in a slot.
- Fs.Fs.FreeInode: the same.
- Fs.Fs.Ialloc: types other than T_DIR; the source calls it with T_FILE only, and has no mkdir.
- Fs.Fs.AddEntry: links a plain file that has no name yet; the source has no link or mkdir call that would do otherwise.
- Fs.Fs.Dirlink: the same.
- SysProc.WriteConsole: what the console does with the bytes is not modelled.
- Proc.Table.DoKill: that a process sees its mark, and exits, on its way back to user mode is in kernel/trap.c, which is not part of this model; nor is the mark that a faulting process gets there.
- Sv39.HardwareView: the A and D bits, which the kernel never sets, are taken to be set by the hardware.
- ReadBack.WriteThenRead: the process does all of this without another one writing the file in between.
- Proc.Table.DoSleep: the lock argument is ignored, as in the source.
- Vm.Memory.Copyout: a range that runs across a multiple of 2^39 in an address space whose last page is a user page; no process has one (`ProcMem.LastUnused`).
- Vm.Memory.Fork: the pages mapped below the parent's size are user pages, which `ProcMem` shows of every process (the source gives the child user access to whatever it copies); when a page copy fails the pages taken stay taken, as in the source.
- ProcMem.Procs.Run: a size that went below zero ends what is claimed (`ProcMem.Procs.Sbrk`); a call that cannot be made is passed over. The kernel's own page table is made before and is only counted as pages in use.
- ProcMem.Procs.UserInit: the slot that a failed user_init or fork leaves behind holds nothing that is ever given back.

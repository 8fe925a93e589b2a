# Verification model of the OS/161 kernel's core

A Dafny model of the parts of OS/161 that keep state and promise something about it, with proofs that they do.
`dafny verify dfyconfig.toml` checks everything.

* **Simple File System.** `SfsLayout` is the on-disk format and the file system state as a value; `SfsBlocks`, `SfsInodes` and
  `SfsTruncate` are the elementary changes to it and what they keep; `SfsDir` is the root directory; `Sfs` is the code of
  `sfs_vnode.c` as a class with the source's fields (disk, freemap, dirty flags, vnode table), proved to act on a flat map from
  inode numbers to files; `SfsMount` is `sfs_fs.c`, `Mksfs` the formatter, `SfsRun` whole runs from a fresh format, `SfsLaws` what their steps mean to a user. `Bitmap`,
  `Bits`, `Seqs`, `Words` and `Uio` are underneath. Every block has one owner, a ghost sequence that the invariant ties to the freemap,
  the inodes and the indirect blocks.
* **Kernel heap.** `KheapModel` is the heap as a value (page references, the lists through them, the free lists inside pages) and
  its invariant; `Kheap` is the code of `kheap.c`; `KheapRun` is the boot-time page allocator and whole runs,
  `KheapLaws` what they mean to a client.
* **Threads.** `Queue` and `PtrArray` are the containers, `Sched` says where each thread is, `Threads` is the code of `thread.c` and
  `scheduler.c` on those containers. `Synch` runs semaphores and locks over `Sched` as a machine whose steps may come in any order;
  `Lhd` adds the disk driver, the device and its interrupts, `LhdCalls` what each call of the driver returns.
* **Library.** `Printf` (with `Decimal`, `PrintfAtoi` and `PrintfLaws`) is the printf engine, snprintf and atoi; `Random` and `Pseudorand` are the
  two random number generators.

Where the code does not do what its comments or header say, the code is modelled and the exact condition proved:

* `lock_release` assigns in its owner check, so a thread that does not hold a lock can release it (`Synch.ReleaseRecorded`,
  `Synch.ForeignRelease`).
* `sfs_truncate` tests the indirect range with a strict comparison, so the block just past the new end can stay mapped
  (`SfsTruncate.TruncateFreesPastEnd`; `SfsRun.TruncateKeepsBlock` is a run in which it does).
* `setstate` reads the header of its array before it saves the current one, so setting the current state again is not harmless
  (`Random.SetSame`).
* `thread_fork` reserves room so that a context switch needs no memory. That holds for the sleepers, but not for the run queue, which
  is one place short, nor for the zombies, whose storage is given up (`Threads.FullRunQueue`, `Threads.ShrunkZombieList`; the
  conditions are in `Threads.ThreadSystem.Yield` and `Threads.ThreadSystem.Exit`).
* Requests near 4 GB wrap around in `kmalloc` and `ram_stealmem` (`Kheap.RoundUpCovers`, `KheapRun.StealSound`).
* `mksfs` refuses disks too large for its map, except the largest, for which the size of the map wraps to 0: it then exits normally
  without having written one (`Mksfs.Format`).
* printf does not ignore `0` when `-` is given, against section 7.19.6.1 of ISO/IEC 9899:1999 (`PrintfAtoi.AtoiReadsBack`).

## Model

| member | source | states |
|---|---|---|
| `SfsLayout.InodeRoundTrip` | os161/kern/include/kern/sfs.h:45-52 | an inode written to its block and read back is the same inode |
| `SfsLayout.InodeBlockRoundTrip` | os161/kern/include/kern/sfs.h:45-52 | and a block read as an inode and written back is the same block, its unused words included |
| `SfsLayout.SuperRoundTrip` | os161/kern/include/kern/sfs.h:35-40 | the superblock survives writing and reading |
| `SfsLayout.InodeLayout` | os161/kern/include/kern/sfs.h:45-52 | at which bytes of the block size, type, link count, direct and indirect blocks are, most significant first |
| `SfsLayout.SuperLayout` | os161/kern/include/kern/sfs.h:35-40 | the same for magic number, size and volume name |
| `SfsDir.DirRoundTrip` | os161/kern/include/kern/sfs.h:57-60 | so does a directory entry |
| `SfsDir.DirLayout` | os161/kern/include/kern/sfs.h:57-60 | the inode number is in the first four bytes of an entry, the name in the rest |
| `SfsDir.CStrPad` | os161/kern/include/kern/sfs.h:57-60 | a name shorter than the field reads back as itself |
| `Bitmap.BitmapObj.constructor` | os161/kern/lib/bitmap.c:30-64 | a new bitmap has its bits clear and the padding bits past the end set |
| `Bitmap.BitmapObj.Alloc` | os161/kern/lib/bitmap.c:72-94 | takes the least clear bit; fails, changing nothing, exactly when all are set |
| `Bitmap.BitmapObj.MarkBit` | os161/kern/lib/bitmap.c:107-118 | sets one bit and no other |
| `Bitmap.BitmapObj.UnmarkBit` | os161/kern/lib/bitmap.c:120-131 | clears one bit and no other |
| `Bitmap.MarkBits` | os161/kern/lib/bitmap.c:107-118 | after marking, the bits set are the old ones and this one |
| `Bitmap.UnmarkBits` | os161/kern/lib/bitmap.c:120-131 | after unmarking, the bits set are the old ones without this one |
| `Bitmap.UnmarkUndoesMark` | os161/kern/lib/bitmap.c:107-131 | unmarking a freshly marked bit gives the very bytes from before |
| `Bits.BitIs` | os161/kern/lib/bitmap.c:96-131 | bit k is the binary digit of weight 2^k |
| `Uio.UioObj.constructor` | os161/kern/userprog/uio.c:113-123 | a kernel uio over a whole buffer |
| `Uio.UioObj.Move` | os161/kern/userprog/uio.c:11-82 | moves exactly n bytes, in order, and advances base, offset and both residues by n |
| `Uio.UioObj.MoveZeros` | os161/kern/userprog/uio.c:84-108 | the same with zeros, sixteen at a time |
| `Sfs.SfsFs.Balloc` | os161/kern/fs/sfs/sfs_vnode.c:60-78 | the least free block, marked and cleared, owned by nobody before; ENOSPC exactly when none is free; the invalid-block panic is unreachable |
| `SfsBlocks.RoomLeft` | os161/kern/fs/sfs/sfs_vnode.c:60-78 | there is room exactly when some block is free |
| `Sfs.SfsFs.Bfree` | os161/kern/fs/sfs/sfs_vnode.c:83-89 | gives the block back |
| `Sfs.SfsFs.Bused` | os161/kern/fs/sfs/sfs_vnode.c:94-103 | tells exactly whether some owner has the block |
| `Sfs.SfsFs.Bmap` | os161/kern/fs/sfs/sfs_vnode.c:115-261 | finds or allocates the block behind a file position: EINVAL exactly past the last position, ENOSPC only on a full disk, no file contents change, the marked-free panics are unreachable |
| `SfsBlocks.AllocDirectKeeps` | os161/kern/fs/sfs/sfs_vnode.c:140-158 | allocating a direct block keeps the ownership invariant and all file contents |
| `SfsBlocks.AllocIndirectKeeps` | os161/kern/fs/sfs/sfs_vnode.c:203-223 | so does allocating the indirect block |
| `SfsBlocks.AllocEntryKeeps` | os161/kern/fs/sfs/sfs_vnode.c:234-253 | and an entry in it |
| `SfsBlocks.FreeDirectKeeps` | os161/kern/fs/sfs/sfs_vnode.c:1093-1100 | freeing a direct block zeroes that block of the file and nothing else |
| `SfsBlocks.FreeEntryKeeps` | os161/kern/fs/sfs/sfs_vnode.c:1122-1128 | so does freeing an indirect entry |
| `SfsBlocks.FreeIndirectKeeps` | os161/kern/fs/sfs/sfs_vnode.c:1135-1140 | an indirect block with no entries left can go without any file changing |
| `SfsBlocks.WriteDataKeeps` | os161/kern/fs/sfs/sfs_vnode.c:277-412 | overwriting a mapped block changes that block of that file only |
| `SfsBlocks.NothingLeaks` | os161/kern/fs/sfs/sfs_vnode.c:60-103 | a freemap bit is set exactly when the block is reserved, a live inode, or used by a live file |
| `SfsBlocks.NothingShared` | os161/kern/fs/sfs/sfs_vnode.c:115-261 | no block has two uses: not two positions, not data and indirect, not either and an inode |
| `Sfs.SfsFs.PartialIo` | os161/kern/fs/sfs/sfs_vnode.c:277-347 | part of a block: exactly those bytes move between file and uio |
| `Sfs.SfsFs.BlockIo` | os161/kern/fs/sfs/sfs_vnode.c:352-412 | a whole block the same way |
| `Sfs.SfsFs.WholeBlocks` | os161/kern/fs/sfs/sfs_vnode.c:475-485 | the loop over whole blocks: stops at the first error, after whole blocks only, and uses two blocks for each at most |
| `Sfs.SfsFs.ReadIo` | os161/kern/fs/sfs/sfs_vnode.c:417-513 | a read returns exactly the bytes up to the end of file, or of the largest file, and changes nothing in the file system; EINVAL exactly when it would go past the largest file |
| `Sfs.SfsFs.WriteIo` | os161/kern/fs/sfs/sfs_vnode.c:417-513 | a write changes exactly the bytes between old and new offset of one file and sets its size to the larger of the two, also when it stops early; which error means what; and how many free blocks it can use up |
| `Sfs.ReadStep` | os161/kern/fs/sfs/sfs_vnode.c:440-495 | reading two adjacent pieces is reading their union |
| `Sfs.WriteStep` | os161/kern/fs/sfs/sfs_vnode.c:440-495 | writing two adjacent pieces is writing their concatenation |
| `Sfs.SfsFs.LoadVnode` | os161/kern/fs/sfs/sfs_vnode.c:1545-1651 | one vnode per inode: a second load is one more reference; the unallocated-block panics are unreachable, and so is the one for the inode type if the disk's type is known, as it is for every inode of a run |
| `Sfs.SfsFs.MakeObj` | os161/kern/fs/sfs/sfs_vnode.c:761-783 | a new empty file, one reference and no link, in a block that was free |
| `Sfs.SfsFs.SyncVnode` | os161/kern/fs/sfs/sfs_vnode.c:38-51 | a clean vnode equals its disk copy; no file changes |
| `Sfs.SfsFs.Reclaim` | os161/kern/fs/sfs/sfs_vnode.c:856-924 | on the last reference a file with no links is erased and its inode freed, any other is written back |
| `Sfs.SfsFs.Decref` | os161/kern/fs/vfs/vnode.c:73-98 | an inode goes exactly when links and references are both gone |
| `SfsInodes.LoadKeeps` | os161/kern/fs/sfs/sfs_vnode.c:1545-1651 | loading keeps the invariant and shows just one file as held |
| `SfsInodes.TakeInodeKeeps` | os161/kern/fs/sfs/sfs_vnode.c:761-783 | a cleared free block becomes a file with nothing in it |
| `SfsInodes.SyncInodeKeeps` | os161/kern/fs/sfs/sfs_vnode.c:38-51 | writing an inode back changes no file |
| `SfsInodes.DropKeeps` | os161/kern/fs/sfs/sfs_vnode.c:890-915 | a clean vnode can leave memory |
| `SfsInodes.DiscardKeeps` | os161/kern/fs/sfs/sfs_vnode.c:896-915 | discarding an empty unlinked inode frees its block and removes that file only |
| `Sfs.SfsFs.Truncate` | os161/kern/fs/sfs/sfs_vnode.c:1063-1157 | which blocks a truncation frees and what the file reads as afterwards, for every length |
| `SfsTruncate.TruncateFreesPastEnd` | os161/kern/fs/sfs/sfs_vnode.c:1111-1133 | no block stays mapped past the new end if and only if the new end is clear of the indirect range, takes all of it, or its first block was unmapped (the loop test is strict) |
| `SfsTruncate.TruncateZeroesTail` | os161/kern/fs/sfs/sfs_vnode.c:1063-1157 | the bytes past the new end are zero if and only if those in the blocks the code keeps already were |
| `SfsTruncate.TruncateToNothing` | os161/kern/fs/sfs/sfs_vnode.c:1063-1157 | truncation to 0 frees exactly the file's data and indirect blocks |
| `SfsTruncate.CutRoom` | os161/kern/fs/sfs/sfs_vnode.c:1063-1157 | a truncation never leaves fewer free blocks |
| `SfsRun.TruncateKeepsBlock` | os161/kern/fs/sfs/sfs_vnode.c:1063-1157 | a run, from mksfs on, in which truncation to 8192 leaves block 16 mapped and its byte in place |
| `SfsDir.WriteKeepsTail` | os161/kern/fs/sfs/sfs_vnode.c:417-513 | a write past the end leaves a gap of zeros if bytes past the end were zero |
| `Sfs.SfsFs.ReadDir` | os161/kern/fs/sfs/sfs_vnode.c:523-550 | one entry; a short entry is impossible |
| `Sfs.SfsFs.WriteDir` | os161/kern/fs/sfs/sfs_vnode.c:556-584 | one entry written or nothing changed; a slot in use can always be rewritten |
| `Sfs.SfsFs.FindName` | os161/kern/fs/sfs/sfs_vnode.c:614-658 | finds exactly the names in the directory, and an empty slot if there is one; the found-twice assertion cannot fail |
| `Sfs.SfsFs.DirLink` | os161/kern/fs/sfs/sfs_vnode.c:664-703 | a fresh name in an empty slot or at the end; EEXIST, ENAMETOOLONG and EINVAL (directory full) exactly when they apply, ENOSPC only with at most one block free; two blocks used at most |
| `SfsDir.FullDir` | os161/kern/fs/sfs/sfs_vnode.c:664-703 | a directory has the most names it can have exactly when every slot it can have is in use |
| `Sfs.SfsFs.DirUnlink` | os161/kern/fs/sfs/sfs_vnode.c:708-720 | clears a used slot and cannot fail |
| `Sfs.SfsFs.LookOnce` | os161/kern/fs/sfs/sfs_vnode.c:726-752 | the named file with one more reference |
| `SfsDir.LinkKeeps` | os161/kern/fs/sfs/sfs_vnode.c:664-703 | linking keeps names unique and link counts equal to the slots naming a file |
| `SfsDir.UnlinkKeeps` | os161/kern/fs/sfs/sfs_vnode.c:708-720 | so does unlinking |
| `SfsDir.LinksAreNames` | os161/kern/fs/sfs/sfs_vnode.c:1183-1379 | the link count of a file is the number of names it has, one more for the root |
| `SfsDir.LinksFit` | os161/kern/include/kern/sfs.h:45-52 | a link count never overflows its 16 bits |
| `SfsDir.DecrefKeeps` | os161/kern/fs/vfs/vnode.c:73-98 | dropping a reference keeps the directory invariant |
| `Sfs.SfsFs.Creat` | os161/kern/fs/sfs/sfs_vnode.c:1183-1236 | opens the named file or makes an empty one; with no block free ENOSPC, otherwise the errors of sfs_dir_link with one block less; a failed creation changes no name and no file |
| `Sfs.SfsFs.Link` | os161/kern/fs/sfs/sfs_vnode.c:1243-1264 | adds the name and counts it, or changes nothing, with the errors of sfs_dir_link |
| `Sfs.SfsFs.Remove` | os161/kern/fs/sfs/sfs_vnode.c:1269-1297 | removes the name, and the file with its last name if nobody holds it |
| `Sfs.SfsFs.Rename` | os161/kern/fs/sfs/sfs_vnode.c:1305-1379 | replaces the old name by the new one for the same file, with no net change of its link count; ENOENT exactly for a missing name, else the errors of sfs_dir_link, and then nothing changes |
| `Sfs.SfsFs.ReadFile` | os161/kern/fs/sfs/sfs_vnode.c:929-936 | sfs_read on the abstract file: which bytes, and exactly when it fails |
| `Sfs.SfsFs.WriteFile` | os161/kern/fs/sfs/sfs_vnode.c:941-948 | sfs_write on the abstract file: no name and no other file changes |
| `Sfs.SfsFs.TruncateFile` | os161/kern/fs/sfs/sfs_vnode.c:1063-1157 | sfs_truncate on the abstract file |
| `SfsMount.WriteMap` | os161/kern/fs/sfs/sfs_fs.c:39-73 | the freemap blocks on disk become the freemap |
| `SfsMount.SyncVnodes` | os161/kern/fs/sfs/sfs_fs.c:119-124 | every vnode becomes clean |
| `SfsMount.Sync` | os161/kern/fs/sfs/sfs_fs.c:80-145 | afterwards nothing in memory is newer than the disk and no file has changed |
| `SfsMount.Mount` | os161/kern/fs/sfs/sfs_fs.c:208-311 | for every disk and block size: ENXIO, EINVAL, the panic on a device that ends before its map, or the file system the disk holds |
| `SfsMount.Unmount` | os161/kern/fs/sfs/sfs_fs.c:165-192 | refused exactly while a vnode is in memory |
| `SfsMount.RemountKeeps` | os161/kern/fs/sfs/sfs_fs.c:80-311 | after a sync a fresh mount has the same files, sizes, types, links, contents and freemap |
| `SfsMount.RemountOk` | os161/kern/fs/sfs/sfs_fs.c:80-311 | and is consistent if and only if no unlinked file was still held |
| `SfsMount.UnmountRemount` | os161/kern/fs/sfs/sfs_fs.c:165-311 | after an unmount, mounting gives back the very same state |
| `Mksfs.DoAllocBit` | os161/sbin/mksfs/mksfs.c:75-84 | sets a clear bit in the kernel's layout; aborts on a set one |
| `Mksfs.WriteBitmap` | os161/sbin/mksfs/mksfs.c:86-114 | marks exactly the reserved blocks and those past the end; fails exactly when the map does not fit, and writes none at all where the 32-bit size of the map wraps |
| `Mksfs.Format` | os161/sbin/mksfs/mksfs.c:116-165 | which disks and names are accepted; what it leaves is fresh if and only if the disk has at most 2^32 - 4096 blocks (beyond, the map size wraps to 0) |
| `Mksfs.FreshMounts` | os161/sbin/mksfs/mksfs.c:39-114 | a formatted disk mounts as a consistent file system with an empty root |
| `Mksfs.FreshBytes` | os161/sbin/mksfs/mksfs.c:39-114 | the bytes of a formatted disk: magic number, size, name, root inode, and which map bits are set |
| `SfsRun.Exec` | os161/kern/fs/sfs/sfs_vnode.c:417-1379 | every operation does what the specification of names, files and free space says: the data a read returns, each error, and what changed |
| `SfsRun.ExecRemount` | os161/kern/fs/sfs/sfs_fs.c:80-311 | unmount and mount succeed exactly when nobody else holds a vnode, and leave names, files and free space as they were |
| `SfsRun.WriteSucceeds` | os161/kern/fs/sfs/sfs_vnode.c:417-513 | a write that fits the largest file and the free space succeeds |
| `SfsRun.WriteThenRead` | os161/kern/fs/sfs/sfs_vnode.c:417-513 | what a successful write wrote, the next read there returns |
| `SfsLaws.RemoveLaw` | os161/kern/fs/sfs/sfs_vnode.c:1269-1297 | after a remove the name is gone and every other leads where it did; the file has one link less, or is gone exactly if that was its last link and nobody holds it; no other file changes |
| `SfsLaws.RemoveThenLookup` | os161/kern/fs/sfs/sfs_vnode.c:1269-1297 | looking up a removed name finds nothing |
| `SfsLaws.LookupLaw` | os161/kern/fs/sfs/sfs_vnode.c:726-752 | a lookup finds just the names there are and takes one reference |
| `SfsLaws.LinkLaw` | os161/kern/fs/sfs/sfs_vnode.c:1243-1264 | a link adds one name for the file given and counts it; nothing else changes |
| `SfsLaws.LinkErrors` | os161/kern/fs/sfs/sfs_vnode.c:664-703 | each error of adding a name with its exact condition, in numbers |
| `SfsLaws.RenameLaw` | os161/kern/fs/sfs/sfs_vnode.c:1305-1379 | a rename changes names only: the new one leads where the old one did, which is gone |
| `SfsLaws.RenameErrors` | os161/kern/fs/sfs/sfs_vnode.c:1305-1379 | when a rename fails, and that it then changes nothing |
| `SfsLaws.CreatLaw` | os161/kern/fs/sfs/sfs_vnode.c:1183-1236 | a new name leads to a new file: empty, one link, one reference, zeros wherever it may grow |
| `SfsLaws.CreatErrors` | os161/kern/fs/sfs/sfs_vnode.c:1183-1236 | when creat fails, and that it then changes nothing |
| `SfsLaws.OpenLaw` | os161/kern/fs/sfs/sfs_vnode.c:1183-1205 | creat of an old name is a lookup, or EEXIST |
| `SfsLaws.CloseLaw` | os161/kern/fs/vfs/vnode.c:73-98 | closing gives up one reference; the file goes exactly if that was the last and it has no name |
| `SfsLaws.OpenThenClose` | os161/kern/fs/vfs/vnode.c:73-98 | opening and closing a file leaves everything as it was |
| `SfsLaws.WriteLaw` | os161/kern/fs/sfs/sfs_vnode.c:417-513 | byte by byte, what a write changes; the size; and that nothing else does |
| `SfsLaws.WriteErrors` | os161/kern/fs/sfs/sfs_vnode.c:417-513 | a write that fits 143 blocks and the free space succeeds; what each error means |
| `SfsLaws.ReadLaw` | os161/kern/fs/sfs/sfs_vnode.c:417-513 | byte by byte, what a read returns, and how much |
| `SfsLaws.TruncateLaw` | os161/kern/fs/sfs/sfs_vnode.c:1063-1157 | byte by byte, what a truncation zeroes and keeps |
| `SfsLaws.LegalLaw` | os161/kern/fs/sfs/sfs_vnode.c:417-1379 | which operations a run takes up |
| `SfsLaws.StepKeepsFile` | os161/kern/fs/sfs/sfs_vnode.c:417-1379 | nothing but a write or truncation changes what is in a file somebody holds |
| `SfsLaws.ReadBack` | os161/kern/fs/sfs/sfs_vnode.c:417-1379 | in every run, what was written is read back any number of operations later, if the file stayed open and was neither written nor truncated meanwhile |
| `SfsLaws.EmptyLaw` | os161/sbin/mksfs/mksfs.c:116-165 | a run from mksfs starts with no names and no file but the root |
| `SfsLaws.RoomLaw` | os161/sbin/mksfs/mksfs.c:86-114 | on a fresh disk all blocks are free but superblock, root inode and map |
| `SfsRun.Run` | os161/kern/fs/sfs/sfs_vnode.c:60-1651 | every sequence of operations, remounts included, keeps ownership, clean-flag and directory invariants and refines the specification |
| `SfsRun.RunFromFormat` | os161/sbin/mksfs/mksfs.c:116-165 | the same for every run that starts from mksfs, whatever was on the disk |
| `SfsRun.StepTails` | os161/kern/fs/sfs/sfs_vnode.c:1063-1157 | an operation that truncates only to 0 keeps bytes past the end zero |
| `SfsRun.RunTails` | os161/kern/fs/sfs/sfs_vnode.c:1063-1157 | so does every run of them |
| `Kheap.KheapObj.AllocPageRef` | os161/kern/lib/kheap.c:110-133 | the least unused page reference, or none exactly when all are in use |
| `Kheap.KheapObj.FreePageRef` | os161/kern/lib/kheap.c:135-148 | clears one bit of the page reference map |
| `Kheap.KheapObj.BlockTypeFor` | os161/kern/lib/kheap.c:332-348 | the smallest block size that is enough |
| `Kheap.KheapObj.FindPage` | os161/kern/lib/kheap.c:372-407 | a page of that size with a free block, or none exactly when there is none |
| `Kheap.KheapObj.DoAlloc` | os161/kern/lib/kheap.c:380-407 | takes the head of the page's free list; the assertions hold |
| `Kheap.KheapObj.ThreadPage` | os161/kern/lib/kheap.c:440-450 | threads the free list through a fresh page, touching no other memory |
| `Kheap.KheapObj.SubpageKmalloc` | os161/kern/lib/kheap.c:350-460 | exactly one block becomes live, of the smallest sufficient size and aligned to it; 0 exactly when no page has room and none can be had |
| `Kheap.KheapObj.UnlinkFromSize` | os161/kern/lib/kheap.c:307-330 | takes a page reference out of its size list |
| `Kheap.KheapObj.UnlinkFromAll` | os161/kern/lib/kheap.c:307-330 | takes it out of the list of all pages |
| `Kheap.KheapObj.ReleasePage` | os161/kern/lib/kheap.c:307-330 | the page leaves both lists and the map, and no other block changes |
| `Kheap.KheapObj.SubpageKfree` | os161/kern/lib/kheap.c:462-540 | exactly that block stops being live; its page is released if and only if it was the last; only the block's own bytes are written; the range and alignment panics are unreachable |
| `Kheap.KheapObj.Kmalloc` | os161/kern/lib/kheap.c:545-563 | nobody held what the caller gets, and what others hold is intact word for word; 0 only when no page of the size has a free block, and there are no pages or no page references |
| `Kheap.KheapObj.Kfree` | os161/kern/lib/kheap.c:565-577 | exactly that allocation stops being held, and what others hold is intact |
| `Kheap.KheapObj.HeldDisjoint` | os161/kern/lib/kheap.c:350-577 | everything held, small or large, is pairwise disjoint |
| `Kheap.RoundUpCovers` | os161/kern/lib/kheap.c:552-553 | rounding up to pages covers the request if and only if it is at most 2^32 - PAGE_SIZE |
| `KheapModel.LiveDisjoint` | os161/kern/lib/kheap.c:164-233 | live blocks do not overlap |
| `KheapModel.PopKeeps` | os161/kern/lib/kheap.c:380-407 | taking a block keeps every list acyclic, duplicate-free and of length nfree |
| `KheapModel.PushKeeps` | os161/kern/lib/kheap.c:518-526 | so does putting one back |
| `KheapModel.AddPageKeeps` | os161/kern/lib/kheap.c:431-456 | a fresh page joins both lists and the map, which stay in step |
| `KheapModel.RemovePageKeeps` | os161/kern/lib/kheap.c:307-330 | so does taking one out |
| `KheapModel.FreeCount` | os161/kern/lib/kheap.c:528-534 | nfree never exceeds the number of blocks and reaches it exactly when none is live |
| `KheapModel.WriteLive` | os161/kern/lib/kheap.c:507-511 | the owner of a block can write to it without harming the heap |
| `KheapRun.StealSound` | os161/kern/arch/mips/mips/ram.c:64-77 | the pages handed out are inside free memory, and the mark moves past them, if and only if the 32-bit sum does not wrap |
| `KheapRun.StealWraps` | os161/kern/arch/mips/mips/ram.c:64-77 | a request for which it wraps |
| `KheapRun.RefsAreHeld` | os161/kern/lib/kheap.c:110-133 | when the page references run out the client holds at least as many allocations |
| `KheapRun.Alloc` | os161/kern/lib/kheap.c:545-563 | kmalloc over ram_stealmem: the client's book and the heap stay in agreement, memory is taken only for what is granted, and 0 means the memory or the page references are used up |
| `KheapRun.Run` | os161/kern/lib/kheap.c:350-577 | over every sequence of allocations, frees and stores: held blocks stay apart, hold what was last stored in them, and are all that is held; and every 0 was a request that memory or page references could not meet |
| `KheapRun.Boot` | os161/kern/lib/kheap.c:350-577 | the same from boot, with any amount of memory |
| `KheapLaws.SlotIs` | os161/kern/lib/kheap.c:545-577 | the client's k-th allocation is what the k-th kmalloc returned, and is held until it is freed |
| `KheapLaws.StoreStays` | os161/kern/lib/kheap.c:350-577 | over every run, a word stored in an allocation is there until it is stored over or the allocation is freed |
| `KheapLaws.UnfreedApart` | os161/kern/lib/kheap.c:350-577 | allocations that have not been freed do not overlap |
| `KheapLaws.HeldIsUnfreed` | os161/kern/lib/kheap.c:350-577 | the heap has given out exactly what was asked for and not freed |
| `KheapLaws.Granted` | os161/kern/lib/kheap.c:545-563 | kmalloc does not fail while its pages are there and, for a small request, fewer than 256 were made before |
| `KheapLaws.GrantsLaw` | os161/kern/lib/kheap.c:332-348 | the least power of two from 16 on that is enough, aligned to it, or whole pages |
| `KheapLaws.SizesDouble` | os161/kern/lib/kheap.c:52-53 | the block sizes double from 16 to half a page |
| `Queue.Queue.Grow` | os161/kern/lib/queue.c:17-51 | the same elements in a larger ring, or nothing happened; terminates, since adding to the larger ring never grows again |
| `Queue.Queue.Preallocate` | os161/kern/lib/queue.c:70-81 | grows exactly if the ring is too small |
| `Queue.Queue.Empty` | os161/kern/lib/queue.c:83-88 | tells whether the ring is empty |
| `Queue.Queue.AddTail` | os161/kern/lib/queue.c:90-108 | appends; needs memory exactly when the ring holds size - 1 elements; a failure changes nothing |
| `Queue.Queue.RemHead` | os161/kern/lib/queue.c:110-121 | removes the oldest element |
| `Queue.RingFull` | os161/kern/lib/queue.c:83-108 | a ring of size n is full with n - 1 elements, and empty exactly when the indices meet |
| `Queue.RingPush` | os161/kern/lib/queue.c:105-106 | advancing the write index appends |
| `Queue.RingPop` | os161/kern/lib/queue.c:110-121 | advancing the read index removes the oldest |
| `PtrArray.PtrArray.Preallocate` | os161/kern/lib/array.c:42-65 | a store at least that large with the same elements, or no change |
| `PtrArray.PtrArray.SetSize` | os161/kern/lib/array.c:67-89 | keeps the elements that fit; an emptied large array gives its store up |
| `PtrArray.PtrArray.Add` | os161/kern/lib/array.c:99-114 | appends; needs memory exactly when the store is full |
| `PtrArray.PtrArray.Remove` | os161/kern/lib/array.c:116-127 | removes one element and keeps the order of the others |
| `Threads.ThreadSystem.constructor` | os161/kern/thread/thread.c:169-210 | the boot thread runs alone |
| `Threads.ThreadSystem.Exorcise` | os161/kern/thread/thread.c:100-116 | the zombies, and only they, are gone |
| `Threads.ThreadSystem.Fork` | os161/kern/thread/thread.c:271-306 | the new thread is runnable and counted, with room reserved; or nothing changed |
| `Threads.ThreadSystem.Stash` | os161/kern/thread/thread.c:364-389 | the current thread goes to the list for its next state; when that can fail |
| `Threads.ThreadSystem.Pick` | os161/kern/thread/scheduler.c:87-105 | the head of the run queue becomes current |
| `Threads.ThreadSystem.Sleep` | os161/kern/thread/thread.c:495-504 | after the first fork it never needs memory |
| `Threads.ThreadSystem.Exit` | os161/kern/thread/thread.c:428-467 | the thread becomes a zombie and is no longer counted; fails exactly when the zombie list is full and there is no memory |
| `Threads.ThreadSystem.Yield` | os161/kern/thread/thread.c:472-482 | fails exactly when the run queue is full and there is no memory |
| `Threads.ThreadSystem.Wakeup` | os161/kern/thread/thread.c:510-538 | all and only the sleepers on the address move, in order, to the end of the run queue; fails exactly when that has no room for them and there is no memory |
| `Threads.FullRunQueue` | os161/kern/thread/thread.c:285-289 | a reachable state with 32 threads in which the space reserved for the run queue is not enough |
| `Threads.ShrunkZombieList` | os161/kern/thread/thread.c:113-115 | a reachable state in which the space reserved for zombies has been given up |
| `Sched.SwitchOutKeeps` | os161/kern/thread/thread.c:367-389 | every thread stays in exactly one place |
| `Sched.SwitchInKeeps` | os161/kern/thread/thread.c:395-398 | and the dispatched one is no longer in the queue |
| `Sched.Placed` | os161/kern/thread/thread.c:367-389 | the thread goes to the end of the list for its next state, and the other lists stay as they are |
| `Sched.ForkedKeeps` | os161/kern/thread/thread.c:291-303 | a fork adds one thread, which is counted |
| `Sched.ExitedKeeps` | os161/kern/thread/thread.c:462-464 | an exit makes a zombie, which is not |
| `Sched.WokenKeeps` | os161/kern/thread/thread.c:510-538 | nobody is lost or copied by a wakeup, and who sleeps on |
| `Sched.PickedOrder` | os161/kern/thread/thread.c:520-537 | of two sleepers on one address the first to sleep is the first to become runnable |
| `Synch.DoPKeeps` | os161/kern/thread/synch.c:62-83 | one turn of P keeps the invariant |
| `Synch.DoVKeeps` | os161/kern/thread/synch.c:85-95 | so does V |
| `Synch.TryLockKeeps` | os161/kern/thread/synch.c:135-153 | and one turn of lock_acquire |
| `Synch.DoReleaseKeeps` | os161/kern/thread/synch.c:155-168 | and lock_release |
| `Synch.ResumedKeeps` | os161/kern/thread/thread.c:395-419 | and a dispatch, which goes round the sleeper's loop |
| `Synch.RunKeeps` | os161/kern/thread/synch.c:62-168 | in every schedule whoever sleeps waits for something that is not there |
| `Synch.NoLostWakeup` | os161/kern/thread/synch.c:62-168 | while a count is positive or a lock free nobody sleeps on it |
| `Synch.TurnOfPDoes` | os161/kern/thread/synch.c:62-83 | a turn of P gets through exactly when the count is positive, and takes one; otherwise the thread sleeps on the semaphore |
| `Synch.TurnOfAcquireDoes` | os161/kern/thread/synch.c:135-153 | a turn of lock_acquire gets through exactly when the lock is free, and then owns it; otherwise the thread sleeps on it |
| `Synch.GivesBack` | os161/kern/thread/synch.c:85-168 | V and lock_release wake all and only the sleepers on what they give back, behind those already runnable |
| `Synch.StepFrame` | os161/kern/thread/synch.c:62-168 | nothing else changes a semaphore, a lock, or where another thread is |
| `Synch.CallsOpen` | os161/kern/thread/synch.c:62-168 | which calls can be made when |
| `Synch.CountLaw` | os161/kern/thread/synch.c:62-95 | in every schedule a count is what it was, plus the V calls, less the P calls that returned, both counted from the steps |
| `Synch.StepThreads` | os161/kern/thread/thread.c:231-538 | only fork and exit change who is alive, by one |
| `Synch.DeadStayDead` | os161/kern/thread/thread.c:428-467 | a thread that is not alive never becomes so again |
| `Synch.ZombiesNeverRun` | os161/kern/thread/thread.c:428-467 | in every schedule a zombie never runs, waits or becomes runnable again |
| `Synch.MutualExclusion` | os161/kern/thread/synch.c:135-181 | in every schedule in which only holders release, at most one thread is between lock_acquire and lock_release, read off the trace, and it is the recorded owner |
| `Synch.ReleaseRecorded` | os161/kern/thread/synch.c:155-168 | a release keeps the record right if and only if the lock is free or the caller's (the owner check assigns) |
| `Synch.ForeignRelease` | os161/kern/thread/synch.c:155-168 | a schedule in which a foreign release lets two threads hold one lock |
| `Lhd.TakeClear` | os161/kern/dev/lamebus/lhd.c:202-203 | a thread gets the device exactly when nobody has it |
| `Lhd.GoXferDev` | os161/kern/dev/lamebus/lhd.c:205-221 | starting an operation, or giving up, keeps the handshake |
| `Lhd.TakeDone` | os161/kern/dev/lamebus/lhd.c:223-224 | the waiting thread goes on exactly when its operation is answered |
| `Lhd.GoFinishDev` | os161/kern/dev/lamebus/lhd.c:226-243 | taking the result and freeing the device keeps the handshake |
| `Lhd.InterruptedDev` | os161/kern/dev/lamebus/lhd.c:72-104 | an interrupt leaves one completion, for the thread that waits for it |
| `Lhd.StepKeeps` | os161/kern/dev/lamebus/lhd.c:72-247 | every step of threads, device and interrupt handler keeps the invariant |
| `Lhd.ConfiguredOk` | os161/kern/dev/lamebus/lhd.c:252-287 | which holds after configuration |
| `Lhd.RunKeeps` | os161/kern/dev/lamebus/lhd.c:72-247 | and so in every run |
| `Lhd.OneAtATime` | os161/kern/dev/lamebus/lhd.c:202-238 | one thread at most is in the section, lh_clear is then 0, lh_done at most 1 and 0 while the device is busy |
| `Lhd.IdleBetween` | os161/kern/dev/lamebus/lhd.c:202-238 | with nobody in the section the device is idle and the semaphores are 1 and 0 |
| `Lhd.OwnResult` | os161/kern/dev/lamebus/lhd.c:226-235 | a good result is the thread's own: the buffer is its sector, or its sector is what it wrote |
| `Lhd.SuccessMeans` | os161/kern/dev/lamebus/lhd.c:170-247 | a successful lhd_io had all its sectors done in order, with its own data |
| `LhdCalls.EveryReturn` | os161/kern/dev/lamebus/lhd.c:170-247 | in every run each lhd_io returns the one right answer to its own request: InvSect exactly past the end, Fault exactly if a copy failed in it, else what the device last said for it |
| `LhdCalls.FinishAnswers` | os161/kern/dev/lamebus/lhd.c:226-243 | the last part of the sector loop gives that answer or goes on |
| `LhdCalls.SmoothSucceeds` | os161/kern/dev/lamebus/lhd.c:170-247 | if no copy fails and the device never refuses, every lhd_io inside the disk succeeds |
| `LhdCalls.NeverStuck` | os161/kern/dev/lamebus/lhd.c:72-247 | in no run does everybody wait for ever: with a thread in lhd_io and nobody runnable the device is at work or about to interrupt |
| `LhdCalls.HistoryLogged` | os161/kern/dev/lamebus/lhd.c:85-104 | the history is one entry for each of the device's answers, with its code |
| `LhdCalls.OneRead` | os161/kern/dev/lamebus/lhd.c:170-247 | a run in which a read sleeps, is woken by the interrupt, and returns the sector |
| `Lhd.LogPush` | os161/kern/dev/lamebus/lhd.c:85-104 | every read finds what the last write of the sector left |
| `Printf.Snp.Send` | os161/lib/libc/snprintf.c:44-64 | stores as much as fits and touches nothing else |
| `Printf.Pf.Modifier` | os161/lib/libc/__printf.c:149-206 | the flags and width are those the modifiers so far spell |
| `Printf.ModifierPush` | os161/lib/libc/__printf.c:149-206 | how one more modifier changes width and fill character |
| `Printf.Pf.GetNum` | os161/lib/libc/__printf.c:213-308 | sign, magnitude and base of a numeric argument, INT_MIN included |
| `Printf.Pf.Convert` | os161/lib/libc/__printf.c:385-433 | the digit loop yields the numeral, whose value in the base is the number, and stays inside its buffer |
| `Printf.BufferSuffices` | os161/lib/libc/__printf.c:54-54 | bits/3 + 2 characters are enough in base 8, 10 and 16 |
| `Printf.Pf.PrintStuff` | os161/lib/libc/__printf.c:330-369 | pads the field as specified |
| `Printf.Padded` | os161/lib/libc/__printf.c:330-369 | a field is as long as the larger of its width and its text |
| `Printf.Pf.Conversion` | os161/lib/libc/__printf.c:461-528 | one field of each kind |
| `Printf.Pf.SendChar` | os161/lib/libc/__printf.c:461-528 | sends what the format so far calls for |
| `Printf.VPrintf` | os161/lib/libc/__printf.c:535-553 | the text sent is the one the format stands for, and the count is its length |
| `Printf.VSnprintf` | os161/lib/libc/snprintf.c:69-112 | the first min(total, len - 1) characters and a NUL, the rest of the buffer untouched, the total returned; nothing for length 0 |
| `Decimal.Atoi` | os161/lib/libc/atoi.c:20-72 | the 32-bit value of blanks, a sign and digits, with wrap-around |
| `Decimal.DigitsValue` | os161/lib/libc/__printf.c:397-426 | a decimal numeral has the value it was made from |
| `Decimal.NumeralValue` | os161/lib/libc/__printf.c:383-426 | in every base up to 16 a numeral reads back as its number and has no leading zero |
| `PrintfLaws.TextLaw` | os161/lib/libc/__printf.c:461-478 | ordinary text is copied |
| `PrintfLaws.FieldLaw` | os161/lib/libc/__printf.c:461-528 | a field takes its modifiers, its type and at most one argument, and the format goes on |
| `PrintfLaws.StringLaw` | os161/lib/libc/__printf.c:500-510 | %s is the string, or (null) |
| `PrintfLaws.CharLaw` | os161/lib/libc/__printf.c:511-527 | %c is the character; %% and unknown types are themselves |
| `PrintfLaws.NumberLaw` | os161/lib/libc/__printf.c:213-456 | sign, prefix and numeral of every numeric field; the numeral has the value of the argument |
| `PrintfLaws.PaddedLaw` | os161/lib/libc/__printf.c:330-369 | where the padding goes, character by character |
| `PrintfLaws.ModifierLaw` | os161/lib/libc/__printf.c:149-206 | width and fill character from the empty string on |
| `PrintfLaws.PlainFormats` | os161/lib/libc/__printf.c:461-553 | what %s, %c and %% print |
| `PrintfLaws.PlainNumbers` | os161/lib/libc/__printf.c:461-553 | what %u, %o and %x print reads back as the number |
| `PrintfLaws.AtoiLaw` | os161/lib/libc/atoi.c:20-72 | the number atoi takes from a text of blanks, sign, digits and anything else |
| `PrintfAtoi.AtoiReadsBack` | os161/lib/libc/__printf.c:330-456 | atoi of a printed %d is the number, for every int, width and padding, if and only if no zeros were padded on the right or the number is 0 |
| `PrintfAtoi.FormatReadsBack` | os161/lib/libc/__printf.c:461-553 | the same through the format interpreter, for every string of modifiers |
| `PrintfAtoi.ZerosOnTheRight` | os161/lib/libc/__printf.c:330-369 | an input for which - and 0 together spoil it |
| `Random.Rng.Next` | os161/lib/libc/random.c:413-442 | one step of x[n] = x[n-deg] + x[n-sep] modulo 2^32, or of the congruential generator; the pointers stay sep apart and in bounds |
| `Random.WindowOf` | os161/lib/libc/random.c:413-442 | after n steps the table is at place n of the one stream with that recurrence |
| `Random.Trinomials` | os161/lib/libc/random.c:122-143 | the four recurrences in numbers |
| `Random.SeededBy` | os161/lib/libc/random.c:239-243 | the fill of the table in numbers |
| `Random.FreshIs` | os161/lib/libc/random.c:230-247 | srandom throws away 10 deg values of the stream that starts with the fill |
| `Random.TypeFor` | os161/lib/libc/random.c:299-321 | the type fits the bytes given, and no larger one does |
| `Random.Draw` | os161/lib/libc/random.c:413-442 | the values drawn are those of the one stream that starts with the window and obeys the recurrence, less their lowest bits |
| `Random.Rolls` | os161/lib/libc/random.c:427-439 | only one wrap has to be tested |
| `Random.Rng.Srandom` | os161/lib/libc/random.c:230-247 | the seeded table after 10 deg steps, with the rear pointer back at the start |
| `Random.Rng.Save` | os161/lib/libc/random.c:295-298 | the header and the table together hold the window |
| `Random.Rng.InitState` | os161/lib/libc/random.c:281-332 | the largest generator that fits; the old one is saved; too few bytes only save |
| `Random.Rng.SetState` | os161/lib/libc/random.c:353-394 | continues from the array, and saves the old generator if it is another array |
| `Random.SwitchAndBack` | os161/lib/libc/random.c:353-394 | switching to another array and back resumes the sequence, whatever was drawn in between |
| `Random.SetSame` | os161/lib/libc/random.c:344-394 | with the current array the position is kept if and only if its header is up to date (the comments say always) |
| `Random.OneDrawAndSame` | os161/lib/libc/random.c:344-394 | one draw is enough to make it stale |
| `Pseudorand.Schrage` | os161/kern/dev/generic/pseudorand.c:15-39 | the step is 16807 seed modulo 2^31 - 1, its parts fit 32 bits, and tmp is never 0 |
| `Pseudorand.Undo` | os161/kern/dev/generic/pseudorand.c:15-39 | the step has an inverse |
| `Pseudorand.SeedStays` | os161/kern/dev/generic/pseudorand.c:26-39 | the seed after n draws, and that it stays in 1..2^31 - 2 |
| `Pseudorand.SeedsApart` | os161/kern/dev/generic/pseudorand.c:26-39 | different seeds never meet |
| `Pseudorand.Softc.Random` | os161/kern/dev/generic/pseudorand.c:20-39 | a draw advances the seed and returns it less one |

## Left out

- SFS under device errors, and more than one caller at a time: the disk is a sequence of blocks and the code's retries of failed I/O
  are not there; the source leaves both to later work.
- Vnode objects: they are records in a table keyed by inode number, not linked objects; open counts, directory listing and other stubs,
  attributes and the VFS layer above are not modelled.
- User-space transfers: a uio has one kernel buffer, so uiomove cannot fail.
- File offsets of 2^31 or more: writes and truncations whose end does not fit the signed 32-bit off_t are outside the contracts.
- Renaming the root directory: the source asserts that the object is a file.
- mksfs: the reading of the volume name up to a colon or slash, and devices of fewer than two blocks or whose size is not a number of blocks.
- Kernel heap under interrupts: the code runs with interrupts off; page references and lists are sequences, memory is a map of words.
- Kheap.KheapObj.Kmalloc: requests above 2^32 - PAGE_SIZE, where the rounding wraps, are excluded here and covered by `Kheap.RoundUpCovers`.
- kheap statistics and the debugging checks as code; what they check is part of the invariant.
- Thread structures, stacks and machine contexts: threads are numbers, and kmalloc in the thread system is an argument that says
  whether there is memory, one answer for all of a wakeup.
- Semaphores and locks as objects: P and lock_acquire sleep inside their loops, so they are steps of a machine; sem_destroy and
  lock_destroy, condition variables (stubs in the source) and lock names are not there.
- lhd: requests that are not a number of sectors, which lhd_io refuses first; register addresses and unknown result codes; uiomove is an action that may fail, a sector is an opaque value.
- printf: arguments of the wrong kind or too few, field widths and counts that overflow an int, and the console as a sink.
- random: the table of initial values, and state arrays that initstate did not write.
- The rest of the kernel (emufs, VFS names, devices, virtual memory, system calls, traps) and the user programs: mostly dispatch or
  hardware, which would add only easy members.

# A verified model of the xv6 kernel's hard parts

This project models, in Dafny, the parts of an xv6 teaching kernel (RISC-V, C) in which state, arithmetic and order
matter most, and proves what they are for: a write-ahead log that makes file-system operations atomic across crashes, a
block cache, a file system with a free-block bitmap and indirect blocks, three-level page tables and the pages behind
them, a user-level heap, a virtio disk driver, a scheduler, directories with link counts, a pipe, and two user programs
that parse: the shell and grep.

Code that updates state in place is a class whose fields are the source's fields and whose methods follow the source's
loops and branches; each method is tied by its contract to specification functions, and the laws are lemmas about
those. Where the source panics, the method has a `requires`, and callers prove that the panic is not reached.

`dafny verify dfyconfig.toml` verifies the whole project.

## What is where

- `BlockDevice.dfy`, `CrashSafety.dfy`: a disk as a sequence of blocks, the order in which commit and recovery write
  them, and what is left after a crash between any two writes.
- `LogProtocol.dfy`: begin_op, log_write, end_op and commit as a state machine over every interleaving.
- `LogAdmission.dfy`: when begin_op puts an operation to sleep, and whether it must.
- `Transactions.dfy`: both together: what operations leave on disk over every interleaving with crashes.
- `BufferCache.dfy`: the cache of kernel/bio.c: buffers, their doubly linked recency list and reference counts.
- `WriteAheadLog.dfy`: kernel/log.c on top of the cache; its methods perform the writes of `CrashSafety` and the steps of
  `LogProtocol`.
- `BlockFormat.dfy`, `FileBlocks.dfy`, `FileSystem.dfy`: bitmap bits, block addresses, and balloc, bmap, readi, writei,
  itrunc and filewrite against files as byte sequences.
- `TransactionBound.dfy`: the bound of ten blocks a transaction, reached, and what it rests on.
- `Directory.dfy`, `Links.dfy`: names, directory entries, link counts, create, link, unlink and iput.
- `DirectoryBytes.dfy`: dirlookup and dirlink on the bytes of a directory's file.
- `PageTable.dfy`, `VirtualMemory.dfy`: Sv39 tables as a finite map, and the ownership of every physical page.
- `UserCopy.dfy`: copyout, copyin and copyinstr through the page tables of `VirtualMemory.dfy`.
- `FreeBlocks.dfy`, `Umalloc.dfy`: malloc and free.
- `VirtQueue.dfy`, `VirtioDisk.dfy`: descriptors, rings, driver and device.
- `Scheduler.dfy`, `SchedulerFairness.dfy`: accumulators, and how far processes drift apart or wait.
- `Grep.dfy`: regular expressions and grep's line buffer.
- `ShellSyntax.dfy`, `Shell.dfy`: the shell's tokens, parser and NUL termination.
- `ShellGrammar.dfy`: what a line of the shell may look like and stand for, said without the parser.
- `Pipe.dfy`: the pipe's ring.
- `Common.dfy`: facts about sets and sequences, and the bits of numbers.

## What the code was found to do

These properties, which one might expect, do not hold as they stand; each has an exact condition and an input at which
it fails.

- The panic "too big a transaction" is not unreachable when operations keep to MAXOPBLOCKS blocks, as filewrite does:
  it can be reached with a log area of any size (`QuotaIsNotEnough`), exactly when the log is full, because log_write
  tests for room before it looks whether the block is logged already (`QuotaPanicsWhenFull`). If operations keep to
  MAXOPBLOCKS calls of log_write, it can be reached exactly when the log area has at most LOGSIZE blocks
  (`TooBigIffLogTooSmall`), and mkfs makes it that small.
- begin_op does not let in every operation that the log has room for: it reserves a whole quota for each operation in
  progress, whatever that has logged already (`SleepsThoughSafe`; one more is too many exactly under the condition of
  `TooManyIff`). But its test reads only `committing`, lh.n and `outstanding`, and no test on these could let in more
  (`SleepsIff`).
- itrunc does not always log at most MAXOPBLOCKS blocks. It does exactly if at most nine bitmap blocks describe data
  blocks (`TruncateBoundIff`, `TruncateBreaks`); this is said of itrunc alone, and sys_unlink logs more beside it.
- grep prints every matching line only if no matching line lies at or after one that does not fit in its buffer
  (`PrintsAllIff`, `MissedLine`).
- Link counts stay right after a new file, link or directory exactly if the directory that the name goes into is still
  linked (`LinkedParentIff`, `LinkedParentIffDir`), which create and sys_link do not look at. A run in which they do not
  is `CreateInRemoved`.
- What an entry names need not be there, and then create panics in ilock. That is so exactly for ".." in a directory that
  is no longer linked and whose parent has been freed (`LiveIff`, `OrphanedDirectory`).

Two more things are worth knowing. scheduler() does not mark the process it picks as running, but the entry past the end
of the table (`Dispatch`). And a chunk of filewrite logs at most ten blocks because files have no holes, which writei
never makes: its loop on a file with holes can log eleven (`HoleBreaks`).

## Model

| member | source | states |
|---|---|---|
| CrashSafety.InstallCrash | kernel/log.c:68-83 | After a crash between any two writes of install_trans the disk is still recoverable, and recovery owes every home block the same value as before. |
| CrashSafety.RecoveryCompletes | kernel/log.c:116-123 | A recovery that completes leaves an empty log and every home block at the value the log owed it. |
| CrashSafety.RecoveryCrash | kernel/log.c:116-123 | A recovery cut short after any number of writes owes each home block what it owed before, so recovery is idempotent under crashes. |
| CrashSafety.RecoverySurvivesCrashes | kernel/log.c:116-123 | Any number of recoveries that crash anywhere, followed by one that completes, give exactly the home blocks owed at the start. |
| CrashSafety.CommitTailIsRecovery | kernel/log.c:193-203 | The writes of commit after the header are the writes that recovery would do. |
| CrashSafety.CommitCrash | kernel/log.c:178-203 | After a crash between any two writes of commit, every home block is owed its old value or every one its new value; the header write is the point between. |
| CrashSafety.LifeIsAtomic | kernel/log.c:178-203 | A transaction with any crash in commit and any crashes in the recoveries after it leaves the home blocks before or after it, and an empty log. |
| CrashSafety.RunIsAtomic | kernel/log.c:116-203 | Over any sequence of such transactions each home block holds the value of the last one that passed its header write. |
| LogProtocol.StepKeepsReserved | kernel/log.c:126-175 | Every step keeps logged blocks plus unused quotas of running operations within LOGSIZE, and nothing runs while a commit does. |
| LogProtocol.StepKeepsIsolated | kernel/log.c:126-235 | Every step keeps each operation's updates in one transaction, the current one while it runs. |
| LogProtocol.RunIsSafe | kernel/log.c:126-235 | Over every interleaving in which operations keep their quota, both hold, and the log never outgrows LOGSIZE. |
| LogProtocol.OperationsAreAtomic | kernel/log.c:126-235 | Two updates of one operation are never split across two commits, and the commit they belong to holds both blocks. |
| LogProtocol.EndOpNeverPanics | kernel/log.c:146-175 | The panic "log.committing" in end_op is unreachable. |
| LogProtocol.BigLogNeverPanics | kernel/log.c:214-235 | With a log area larger than LOGSIZE, operations that call log_write at most MAXOPBLOCKS times never reach "too big a transaction". |
| LogProtocol.TooBigIffLogTooSmall | kernel/log.c:214-235 | Some run in which every operation keeps to MAXOPBLOCKS calls of log_write reaches that panic if and only if the log area has at most LOGSIZE blocks. |
| LogProtocol.QuotaIsNotEnough | kernel/log.c:214-235 | Some run in which every operation keeps to MAXOPBLOCKS blocks reaches it, whatever the size of the log area. |
| LogProtocol.QuotaPanicsWhenFull | kernel/log.c:214-235 | In such runs a call panics if and only if the log is full, and with a log area larger than LOGSIZE only for a block that is logged already. |
| LogAdmission.TooManyIff | kernel/log.c:126-142 | In any state that a run leads to, one operation more makes it possible that operations within their quotas outgrow the log if and only if what is logged, what is left of the quotas in use and one whole quota exceed LOGSIZE. |
| LogAdmission.SleepIsNeeded | kernel/log.c:133-135 | Where begin_op sleeps for want of space, some run leads to a state with the same lh.n and outstanding in which one operation more would let the log be outgrown; for a log area of any size. |
| LogAdmission.SleepsIff | kernel/log.c:126-142 | begin_op sleeps if and only if a commit is running or there is such a run: of the tests on what it reads, none that is safe lets in more. |
| LogAdmission.SleepsThoughSafe | kernel/log.c:133-135 | A run after which begin_op sleeps though one operation more would do no harm. |
| Transactions.WholeOperations | kernel/log.c:116-235 | Over every interleaving of operations, commits, crashes and interrupted recoveries, the home blocks on disk are at every moment what the changes of committed transactions, in order, make of them, and reads return that with the pending changes; no operation has some changes committed and others lost or pending. |
| Transactions.DiskWasQuiet | kernel/log.c:116-235 | So what recovery leaves is what reads returned at some moment of normal running with no operation in progress. |
| Transactions.InvariantSurvives | kernel/log.c:116-235 | And a property of the home blocks that holds whenever no operation is in progress holds after every crash and recovery. |
| LruList.Unlink | kernel/bio.c:128-129 | Unhooking a buffer from the doubly linked list leaves the list of the others, in order. |
| LruList.PushFront | kernel/bio.c:130-133 | Hooking it in after the head makes it the first, and the rest as before. |
| BufferCache.RoomForOne | kernel/bio.c:77-88 | Some buffer has no references, so that bget does not panic, if and only if fewer blocks are in use than there are buffers. |
| BufferCache.RecycleCoherent | kernel/bio.c:77-86 | Reusing an unreferenced buffer for a block that is nowhere cached keeps one buffer at most per block; of the block it held, reads now return what is on disk. |
| BufferCache.NothingLost | kernel/bio.c:77-86 | That changes nothing if every unreferenced block is as on disk. |
| BufferCache.StoreCoherent | kernel/bio.c:92-112 | A client that changes a locked buffer changes what reads of that block return, and of no other. |
| BufferCache.WriteCoherent | kernel/bio.c:106-112 | Writing a buffer out makes the disk agree with it and keeps every other block's state. |
| BufferCache.Cache.constructor | kernel/bio.c:36-53 | The initial list holds all NBUF buffers once, and every read will return what is on disk. |
| BufferCache.Cache.FindCached | kernel/bio.c:66-74 | The scan from the head finds the buffer that holds the block if there is one. |
| BufferCache.Cache.FindUnused | kernel/bio.c:77-86 | The scan from the tail finds the least recently used buffer without references. |
| BufferCache.Cache.Bget | kernel/bio.c:58-89 | Returns the one buffer for the block, locked, with one more reference; a miss takes the least recently used free one, and of reads only those of the block evicted can change, to what is on disk. |
| BufferCache.Cache.Bread | kernel/bio.c:92-103 | The buffer's data is the last contents anyone left for the block. |
| BufferCache.Cache.Await | kernel/bio.c:66-74 | Waiting for a block's lock comes to its holder, if there is one, releasing it; no read changes. |
| BufferCache.Cache.Bwrite | kernel/bio.c:106-112 | Exactly one disk write, of the buffer's block and data. |
| BufferCache.Cache.Brelse | kernel/bio.c:116-137 | One reference fewer; an unreferenced buffer moves to the front of the recency list, and otherwise the order stays; a change is at risk afterwards exactly if the reference was the last and the block is not on disk. |
| BufferCache.Cache.Bpin | kernel/bio.c:139-144 | One reference more, so the buffer cannot be reused, and nothing else changes. |
| BufferCache.Cache.Bunpin | kernel/bio.c:146-151 | One reference fewer; a change is at risk afterwards exactly if it was the last and the block is not on disk. |
| WriteAheadLog.StagesAreCommit | kernel/log.c:193-203 | The four stages of commit together perform the commit writes whose crashes are studied. |
| WriteAheadLog.CommitHome | kernel/log.c:193-203 | After them a home block has its logged contents, or what it had if it was not logged. |
| WriteAheadLog.Log.RoomToCommit | kernel/log.c:178-191 | When only logged blocks are referenced, some buffer is free for the log block, so that bget does not panic, if and only if fewer than NBUF blocks are logged; with a log area of at most NBUF blocks that is so. |
| WriteAheadLog.Log.WriteLog | kernel/log.c:178-191 | Copies the cached contents of the logged blocks, in order and each once its holder has released it, to the log area, with exactly those disk writes. |
| WriteAheadLog.Log.InstallTrans | kernel/log.c:68-83 | Copies the log to the home blocks with exactly those disk writes, and unpins each block unless recovering. |
| WriteAheadLog.Log.WriteHead | kernel/log.c:102-114 | One disk write, of a header that lists the logged blocks. |
| CrashSafety.HeaderWords | kernel/log.c:103-114 | The header block has the count, then the block numbers in order, then what was there. |
| WriteAheadLog.Log.ReadHead | kernel/log.c:86-97 | Reads back exactly the blocks that the header lists. |
| WriteAheadLog.Log.Commit | kernel/log.c:193-203 | Waits for holders of logged blocks; the disk sees exactly the commit writes; afterwards the log is empty, every block that no one holds has on disk what reads return, and no read changes. |
| WriteAheadLog.Log.RecoverFromLog | kernel/log.c:116-123 | The disk sees exactly the recovery writes, and the log is empty. |
| WriteAheadLog.Log.BeginOp | kernel/log.c:126-142 | Lets the operation in exactly if no commit is running and lh.n and a quota for each operation, this one included, fit in LOGSIZE; this is the protocol's step, of which `LogAdmission` speaks. |
| WriteAheadLog.Log.LogWrite | kernel/log.c:214-235 | Takes the protocol's step; the block ends up logged once, and keeps a reference besides its holder's from its first logging on. |
| WriteAheadLog.Log.ReadBlock | kernel/bio.c:92-103 | While operations run, a read returns what the block's last holder left, and every block that differs from the disk is logged or held, every logged block pinned. |
| WriteAheadLog.Log.StoreBlock | kernel/log.c:206-213 | A holder's change keeps that so, and is what reads return. |
| WriteAheadLog.Log.WriteBlock | kernel/bio.c:106-112 | So does writing the block past the log. |
| WriteAheadLog.Log.ReleaseBlock | kernel/bio.c:116-137 | Releasing keeps it so if and only if the block is logged or as on disk. |
| WriteAheadLog.Log.UpdateBlock | kernel/log.c:206-213 | Read, change, log_write and release together keep it so, and leave a commit as possible as it was. |
| WriteAheadLog.Log.EndOp | kernel/log.c:146-175 | Takes the protocol's step; the last operation out commits everything logged, any other leaves cache and disk alone. |
| BlockFormat.WordRoundTrip | kernel/fs.c:402-410 | A block number stored in an indirect block is read back, and the others stay. |
| BlockFormat.BitAfter | kernel/fs.c:74-79 | Setting or clearing one bit of a bitmap block changes that bit and no other. |
| BlockFormat.BitOfWord | kernel/fs.c:72-76 | Words and bits are numbered alike, lowest byte first: bit i of a block is bit i % 32 of its word i / 32. |
| FileBlocks.InodeWhere | kernel/fs.h:45-45 | All 64 bytes of inode n, counted from block inodestart on, are in the block that IBLOCK gives. |
| FileBlocks.BitWhere | kernel/fs.h:51-51 | The bit of block b, counted from block bmapstart on, is bit b. |
| FileBlocks.SlotWhere | kernel/fs.c:382-415 | Block bn of a file is found through addrs[bn], or from NDIRECT on through word bn - NDIRECT of the indirect block. |
| FileBlocks.AllocKeeps | kernel/fs.c:65-88 | Taking a free block marks that one used, zeroes it, changes no block address, and no one held it. |
| FileBlocks.FreeKeeps | kernel/fs.c:91-105 | Freeing clears exactly that block's mark. |
| FileBlocks.GrowKeeps | kernel/fs.c:382-421 | Adding a free block to an inode's slot keeps every block number held once and marked used, and fills that slot alone. |
| FileBlocks.GrowKeepsBytes | kernel/fs.c:382-421 | Doing so changes no byte of any file. |
| FileBlocks.GrowKeepsNoLeaks | kernel/fs.c:382-421 | If every used data block belonged to a file, it still does. |
| FileSystem.StillNoHoles | kernel/fs.c:382-421 | Files that gain blocks and keep their sizes are still without holes. |
| FileBlocks.OverwriteBytes | kernel/fs.c:520-525 | Overwriting one block of a file changes the bytes of that block of that file and no other byte. |
| FileSystem.LogBoundSize | kernel/file.c:148-175 | Four data blocks of which the first was mapped, with their bitmap blocks, the indirect block and the inode, are at most ten blocks. |
| FileSystem.EmptiedIsTruncated | kernel/fs.c:425-453 | Dropping every slot frees exactly the file's blocks and leaves the other files as they were. |
| FileSystem.ExactlyStep | kernel/fs.c:505-539 | One more turn of writei's loop takes only free blocks, in that file block's slots, and logs each of them, its bitmap block and the indirect block. |
| FileSystem.FileSystem.Balloc | kernel/fs.c:65-88 | Returns the first free block, now used and zeroed, or 0 only if the disk is full. |
| FileSystem.FileSystem.Bfree | kernel/fs.c:91-105 | Frees the block; a block that is free already is excluded, and callers prove it. |
| FileSystem.FileSystem.Bmap | kernel/fs.c:382-421 | Returns the block's number, allocating on the way what is missing; no byte changes, a mapped block stays, and the log gains exactly what that takes. |
| FileSystem.FileSystem.Iupdate | kernel/fs.c:225-241 | The disk's inode becomes the one in memory. |
| FileSystem.FileSystem.Writei | kernel/fs.c:505-539 | The file becomes old[..off] + data[..r] + old[off+r..] and other files stay; -1 exactly for a bad range; all is written exactly if, before, there was a free block for every block that the bytes need and that is missing, the indirect block included; else r falls short with the disk full, at a block boundary; what is taken and logged is accounted for exactly. |
| FileSystem.FilledLevel | kernel/fs.c:382-421 | Every slot that a write fills costs exactly one free block, so what is missing and what is free go down together. |
| FileSystem.WrittenIff | kernel/fs.c:505-539 | A write gets to its end if and only if the free blocks were enough for the empty slots that its bytes need. |
| FileSystem.FileSystem.Readi | kernel/fs.c:471-496 | Returns the slice of the file's bytes and allocates nothing, because files have no holes. |
| FileSystem.FileSystem.Itrunc | kernel/fs.c:425-453 | Frees exactly the file's blocks and logs exactly their bitmap blocks and the inode's; "freeing free block" is not reached. |
| TransactionBound.TruncateBoundIff | kernel/fs.c:425-453 | With an inode to use and no inode in a bitmap block, every file's truncation logs at most MAXOPBLOCKS blocks if and only if at most nine bitmap blocks describe data blocks. |
| TransactionBound.TruncateBreaks | kernel/fs.c:425-453 | A run of itrunc that logs more. |
| FileSystem.FileSystem.Filewrite | kernel/file.c:148-175 | Chunked writing has the effect of one write of the bytes counted; it returns -1 exactly if there is something to write and the offset is past the end, the range passes the largest file, or the free blocks are too few for the blocks missing; the offset then is that of the first byte without a block, or of the first chunk that does not fit; each chunk's transaction logs at most MAXOPBLOCKS blocks. |
| TransactionBound.Ten | kernel/file.c:148-175 | In a file system with one free block per bitmap block, a chunk across the direct and indirect blocks logs ten different blocks. |
| TransactionBound.Reached | kernel/file.c:148-175 | Whatever state a three-block writei to that file system can end in, all is written and at least ten blocks are logged. |
| TransactionBound.Tight | kernel/file.c:148-175 | A three-block writei from that file system, in order before and after, that writes everything and logs exactly MAXOPBLOCKS blocks: the bound is reached. |
| TransactionBound.Eleven | kernel/fs.c:505-539 | A chunk whose four blocks and indirect block are all new, with bits in different bitmap blocks, logs eleven. |
| TransactionBound.HoleBreaks | kernel/fs.c:505-539 | On a file of sixteen blocks that has none of them, writei's loop and its iupdate write three blocks' worth of bytes and log more than MAXOPBLOCKS blocks: the bound needs files without holes. |
| Names.Strncmp | kernel/string.c:60-68 | Zero if and only if the two buffers hold the same name, up to n bytes. |
| Names.Strncpy | kernel/string.c:70-81 | The copy holds the same name, padded with NULs. |
| Names.KeyIs | kernel/string.c:60-68 | The name in a buffer is what comes before its first NUL, or its first n bytes. |
| LinkCounts.AddNameKeeps | kernel/sysfile.c:145-156 | A name for a file in a linked directory keeps link counts equal to the number of naming entries, names unique, and directories a tree in which every linked one leads up to the root. |
| LinkCounts.AddDirKeeps | kernel/sysfile.c:270-289 | So does a new directory with its dots, counting its ".." for the parent. |
| LinkCounts.DropFileKeeps | kernel/sysfile.c:222-233 | So does removing a file's name. |
| LinkCounts.DropDirKeeps | kernel/sysfile.c:222-233 | So does removing an empty directory, whose link count becomes 0. |
| LinkCounts.OnlyName | kernel/sysfile.c:215-220 | An empty directory has exactly one name, in the directory its ".." names. |
| LinkCounts.FreeKeeps | kernel/fs.c:341-354 | An inode that iput frees is named by no entry of a linked directory, and freeing it disturbs nothing. |
| LinkCounts.LinkedParentIff | kernel/sysfile.c:149-156 | After a new name for a file in a directory the counts are right if and only if that directory is still linked. |
| LinkCounts.LinkedParentIffDir | kernel/sysfile.c:270-289 | The same for a new directory, whose ".." makes an unlinked parent count as linked again. |
| Links.Inodes.Dirlookup | kernel/fs.c:551-575 | On the entries of a directory: finds one with the name, by DIRSIZ-byte comparison, or there is none. |
| Links.Inodes.Dirlink | kernel/fs.c:579-606 | On the entries of a directory: succeeds exactly if the name is new and the entry can be written, and then puts it in the first free place and changes nothing else. |
| Links.Inodes.IsDirEmpty | kernel/sysfile.c:172-186 | True exactly if no entry after the dots is in use. |
| Links.Inodes.Ialloc | kernel/fs.c:198-219 | Takes the first free inode, blank, or reports that there is none. |
| Links.Inodes.Release | kernel/fs.c:336-362 | iput frees the inode exactly if the reference was the last and no entry names it. |
| Links.Inodes.Link | kernel/sysfile.c:123-170 | Adds the name and one link or changes nothing, with the exact condition for each; the invariants hold after if and only if it fails or the directory was still linked. |
| Links.Inodes.Unlink | kernel/sysfile.c:188-243 | Removes the entry and its link, frees the inode if nothing else keeps it, or changes nothing, with the exact condition; "nlink < 1" is not reached. |
| Links.Inodes.Create | kernel/sysfile.c:245-302 | Opens what the name is for, or makes it whole, or leaves everything as it was, with the exact condition for each; the invariants hold after unless something is made in a directory that is no longer linked. |
| Links.LinkFinds | kernel/sysfile.c:150-155 | After sys_link the names are those before and the new one, for the inode. |
| Links.CreateFinds | kernel/sysfile.c:270-290 | After create they are those before, the new one, and for a directory its "." and "..". |
| Links.UnlinkFinds | kernel/sysfile.c:211-236 | After sys_unlink they are those before without that name, and without those in the directory if it is freed. |
| Links.CreateInRemoved | kernel/sysfile.c:245-302 | mkdir, rmdir of the directory while it is open, and creating a file in it: a run after which the invariants fail. |
| Links.LiveIff | kernel/sysfile.c:256-258 | The inode that a name in a directory is for has been freed, so that ilock panics, if and only if the name is "..", the directory is no longer linked, and what its ".." names is free. |
| Links.OrphanedDirectory | kernel/sysfile.c:188-243 | A run that ends with everything in order and such a directory open. |
| DirectoryBytes.DirentRoundTrip | kernel/fs.h:52-60 | An entry's sixteen bytes are read back as the entry. |
| DirectoryBytes.DirentWhere | kernel/fs.h:56-59 | The inode number is in the first two bytes, the lower one first, and the name in the other fourteen. |
| DirectoryBytes.EntriesSpliced | kernel/fs.c:579-606 | Writing an entry's bytes at its offset puts that entry and leaves the others. |
| DirectoryBytes.Dirlookup | kernel/fs.c:551-575 | Reading entry by entry with readi, finds the first entry with the name and its offset, or there is none; nothing changes. |
| DirectoryBytes.Dirlink | kernel/fs.c:579-606 | Writes the entry's bytes with writei in the first free place or at the end; it fails exactly if the name is there, or if there is no free entry and the directory is at its largest or its next block, and its indirect block if missing, cannot be had; then the entries are as before. |
| DirectoryBytes.ClearEntry | kernel/sysfile.c:222-224 | Zeroing an entry with writei writes all of it, so "unlink: writei" is not reached, and clears that entry alone. |
| Sv39.PxInjective | kernel/riscv.h:354-357 | Page numbers below MAXVA with the same three 9-bit indices are equal. |
| Sv39.Decompose | kernel/riscv.h:354-357 | The three indices are the digits of the page number in base 512. |
| Sv39.MakePteBits | kernel/vm.c:158-158 | Every bit of an entry: those of the permissions, PTE_V, and above them those of the frame's number. |
| Sv39.AddTableSameMap | kernel/vm.c:85-103 | Adding an empty table page changes no translation. |
| Sv39.AddRootMap | kernel/vm.c:196-205 | A new root page has no translation, and changes none. |
| Sv39.SetLeafMap | kernel/vm.c:142-165 | Writing one leaf entry changes the translation of that page of that table and of no other. |
| PageAllocator.PushKeeps | kernel/kalloc.c:46-63 | Freeing a page puts it at the front of the list threaded through the free pages. |
| PageAllocator.PopKeeps | kernel/kalloc.c:68-82 | Allocating takes the front page off, and the rest of the list is intact. |
| PageOwnership.TabledGood | kernel/vm.c:93-99 | A page that becomes a table keeps every page in exactly one role. |
| PageOwnership.EnteredGood | kernel/vm.c:156-158 | Filling in a leaf entry, a user one only for a page that is the caller's, makes that page the leaf's user page, keeps the roles and changes one translation. |
| PageOwnership.CreatedGood | kernel/vm.c:196-205 | Making a page the root of a new table keeps the roles and the translations. |
| PageOwnership.MappedOnce | kernel/vm.c:142-192 | Conservation: a page that a user leaf leads to is not free, no page-table page of any tree, and led to by no other user leaf of any tree. |
| VirtualMemory.NoLeafBelow | kernel/vm.c:85-103 | If walk stops at a missing table, the address has no translation. |
| VirtualMemory.PageAdded | kernel/vm.c:233-245 | A page allocated, filled and mapped is a user page with its contents and flags, and only that translation is new. |
| VirtualMemory.PageNotAdded | kernel/vm.c:240-244 | A page whose mapping fails goes back, and no translation has changed. |
| VirtualMemory.FreesAll | kernel/vm.c:291-297 | Unmapping and tearing down leave no page of the tree in use. |
| VirtualMemory.AddressSpaces.constructor | kernel/kalloc.c:26-31 | kinit leaves every page of memory free and on the list. |
| VirtualMemory.AddressSpaces.Freerange | kernel/kalloc.c:33-40 | Puts every whole page of the range on the list, the last first, and changes no other. |
| VirtualMemory.AddressSpaces.Kalloc | kernel/kalloc.c:68-82 | Takes a page off the free list or returns 0 if it is empty; no translation changes. |
| VirtualMemory.AddressSpaces.Kfree | kernel/kalloc.c:46-63 | Returns a page that is in use to the free list; no translation changes; if it was a user page its leaf is still there, and all else is in order. |
| VirtualMemory.AddressSpaces.Walk | kernel/vm.c:85-103 | Finds the leaf entry for an address, adding the table pages that are missing and no other; no translation changes, and with alloc it fails exactly if fewer pages are free than are missing, without it exactly if one is. |
| VirtualMemory.AddressSpaces.Uvmcreate | kernel/vm.c:196-205 | A new page table that maps nothing, or 0 exactly if no page is free. |
| VirtualMemory.AddressSpaces.Walkaddr | kernel/vm.c:108-126 | Walks the tree to the frame of a page if it is valid and user-accessible, else 0. |
| VirtualMemory.AddressSpaces.Mappages | kernel/vm.c:142-165 | Maps exactly the pages of the range, in order to consecutive frames, each entry with every permission bit asked for; fails exactly if fewer pages are free than table pages are missing, with a prefix mapped; user leaves only for frames that are the caller's, which become the user pages of those leaves. |
| VirtualMemory.AddressSpaces.Uvmunmap | kernel/vm.c:170-192 | Removes exactly the range's translations and, if asked, frees exactly their pages. |
| VirtualMemory.AddressSpaces.Uvmdealloc | kernel/vm.c:255-267 | Shrinking frees exactly the pages above the new size. |
| VirtualMemory.AddressSpaces.Uvmalloc | kernel/vm.c:225-249 | Growing adds exactly the new pages, zeroed and with the right flags; it fails exactly if fewer pages are free than new pages and missing table pages are needed, and then undoes every one. |
| VirtualMemory.AddressSpaces.Freewalk | kernel/vm.c:271-287 | Frees exactly the table pages of a tree without leaves; "freewalk: leaf" is not reached. |
| VirtualMemory.AddressSpaces.Uvmfree | kernel/vm.c:291-297 | Every page of the address space, user or table, goes back to the free list, and other address spaces stay. |
| VirtualMemory.AddressSpaces.Uvmcopy | kernel/vm.c:305-333 | The child gets its own copy of each of the parent's pages with the same flags; it fails exactly if fewer pages are free than pages and missing table pages are needed, and then undoes all of it. |
| UserCopy.ViewGood | kernel/vm.c:108-126 | The view that a tree in memory gives a user program has a frame for every accessible page, and no frame twice. |
| UserCopy.PageRoundTrip | kernel/vm.c:364-364 | A page's bytes stored as words are read back. |
| UserCopy.ValueBits | kernel/vm.c:364-364 | Bit k of a word is bit k % 8 of its byte k / 8. |
| UserCopy.UserMemory.Copyout | kernel/vm.c:351-371 | Succeeds exactly if every page of the range is accessible, and then the range reads as the source; writes nothing outside the range's frames and in no page but the address space's own, so tables, free list and translations stay. |
| UserCopy.UserMemory.Copyin | kernel/vm.c:376-396 | Succeeds exactly if every page of the range is accessible, and then returns what the range reads as. |
| UserCopy.UserMemory.Copyinstr | kernel/vm.c:402-439 | Succeeds exactly if a NUL lies within max bytes with every page up to it accessible, and returns the bytes before the first. |
| UserCopy.UserMemory.RoundTrip | kernel/vm.c:351-396 | copyout and then copyin of a range returns what was copied. |
| FreeBlocks.Canonical | user/umalloc.c:24-44 | A list of free blocks in address order with none touching is determined by the memory it covers. |
| FreeBlocks.InsertedChain | user/umalloc.c:33-42 | Joining a freed block to the neighbours it touches keeps the list in order and as coalesced as can be. |
| FreeBlocks.InsertedCovers | user/umalloc.c:33-42 | The free memory grows by exactly that block. |
| FreeBlocks.TakenCovers | user/umalloc.c:75-81 | The free memory shrinks by exactly the block handed out. |
| FreeBlocks.TakeThenFree | user/umalloc.c:24-90 | Freeing a block just taken gives back the same list of free blocks. |
| Umalloc.StitchedLinked | user/umalloc.c:33-42 | free's pointer assignments make the headers the circular list with the block inserted and joined. |
| Umalloc.TakenLinked | user/umalloc.c:75-82 | malloc's make them the list without what it takes. |
| Umalloc.Found | user/umalloc.c:30-32 | free's two tests hold together exactly at the one place where the block belongs. |
| Umalloc.NeverBoth | user/umalloc.c:24-90 | No unit of memory is in a free block and in a live one. |
| Umalloc.FreeConserves | user/umalloc.c:24-44 | Freeing a live block neither gains nor loses memory. |
| Umalloc.MallocConserves | user/umalloc.c:63-90 | malloc neither gains nor loses memory, except what it gets from sbrk. |
| Umalloc.Heap.Free | user/umalloc.c:24-44 | The search ends; the list gains the block in its place, coalesced; the others stay live and apart from it. |
| Umalloc.Core | user/umalloc.c:52-53 | What morecore asks for is the least number of units that is neither below the request nor below 4096. |
| Umalloc.Heap.Morecore | user/umalloc.c:46-61 | Adds these units to the list if sbrk grants them. |
| Umalloc.Heap.Malloc | user/umalloc.c:63-90 | The search ends; 0 exactly if nothing fits and sbrk refuses; else a new live block of the right size from the end of the first fit after freep, which is left at the block before it. |
| Umalloc.Heap.MallocThenFree | user/umalloc.c:24-90 | free of what malloc has just returned leaves the same list of free blocks, with what sbrk gave added if it was asked. |
| VirtQueue.FreeCount | kernel/virtio_disk.c:156-213 | Free descriptors number eight less three per live chain, so at most two chains are live. |
| VirtQueue.RingRoom | kernel/virtio_disk.c:272-277 | At most two ring entries are ever unread. |
| VirtQueue.RingPush | kernel/virtio_disk.c:272-277 | The slot written next is none of the unread ones. |
| VirtQueue.RingPop | kernel/virtio_disk.c:312-324 | The entry read next is the head of a chain that waits there, and the others stay unread. |
| VirtQueue.IndexTest | kernel/virtio_disk.c:272-324 | 16-bit indices that wrap give the right slots, and are equal exactly when nothing is unread. |
| VirtQueue.OwnersAdd | kernel/virtio_disk.c:215-265 | Three free descriptors made a chain leave each descriptor free or in exactly one live chain. |
| VirtQueue.OwnersDrop | kernel/virtio_disk.c:184-197 | So does freeing a chain, and its descriptors were not free. |
| VirtQueue.RequestsStage | kernel/virtio_disk.c:312-324 | A request is finished once, when the handler first sees it. |
| VirtioDisk.Driver.constructor | kernel/virtio_disk.c:145-146 | All descriptors start free and both rings empty. |
| VirtioDisk.Driver.AllocDesc | kernel/virtio_disk.c:155-166 | Takes a free descriptor, or there is none. |
| VirtioDisk.Driver.Alloc3Desc | kernel/virtio_disk.c:199-213 | Three different free descriptors exactly if there are three; a failed attempt leaves no trace. |
| VirtioDisk.Driver.FreeChain | kernel/virtio_disk.c:184-197 | Following the links frees exactly the chain's three descriptors; the free_desc panics are not reached. |
| VirtioDisk.Driver.Prepare | kernel/virtio_disk.c:215-269 | Gets a chain exactly if fewer than two are live, and formats it for the request; else changes nothing. |
| VirtioDisk.Driver.Offer | kernel/virtio_disk.c:272-272 | Writing the avail slot overwrites no unread entry. |
| VirtioDisk.Driver.Publish | kernel/virtio_disk.c:277-277 | The chain is now for the device to fetch, after those before it. |
| VirtioDisk.Driver.Fetch | kernel/virtio_disk.c:271-281 | The device fetches the chains in the order they were published, each once. |
| VirtioDisk.Driver.Complete | kernel/virtio_disk.c:238-266 | What the device does on following the descriptors is the request: the block moves the right way between that buffer and that sector. |
| VirtioDisk.Driver.Notice | kernel/virtio_disk.c:312-324 | One finished request, not seen before, is marked so and its buffer released; the status is 0. |
| VirtioDisk.Driver.Intr | kernel/virtio_disk.c:294-327 | Whatever requests the device fetches and finishes while the handler runs, afterwards none is finished and unseen, and every buffer of one that was finished before is released. |
| VirtioDisk.Driver.Finish | kernel/virtio_disk.c:284-289 | A waiter whose buffer is released frees its chain, and its request has finished. |
| Scheduler.JoinKeeps | kernel/proc.c:283-292 | A process that joins at the least accumulator keeps all active ones within 10 of each other and the running one a least one. |
| Scheduler.ChargeKeeps | kernel/proc.c:576-585 | So does charging a process with a least accumulator its priority. |
| Scheduler.Table.SetAccumulator | kernel/proc.c:283-292 | The accumulator becomes the least of the other active processes', or 0 if there is none. |
| Scheduler.Table.Pick | kernel/proc.c:489-497 | The first process with the least accumulator, or none exactly if no active one is below INT_MAX. |
| Scheduler.Table.Dispatch | kernel/proc.c:485-506 | The first process with the least accumulator becomes the CPU's, none exactly if none is active; what is marked as running is the entry past the table; the bound holds. |
| Scheduler.Table.Yield | kernel/proc.c:576-585 | Only the running process changes: runnable, and charged; the bound holds. |
| Scheduler.Table.Sleep | kernel/proc.c:610-629 | Only the running process changes: asleep on the channel; the bound holds. |
| Scheduler.Table.Wakeup | kernel/proc.c:641-656 | Exactly the sleepers on the channel become runnable, all at the least accumulator before; the bound holds. |
| Scheduler.Table.Fork | kernel/proc.c:297-352 | The child joins with priority 5 at the parent's accumulator, the least there is; the bound holds. |
| Scheduler.Table.Exit | kernel/proc.c:403-413 | Only the running process changes: a zombie; the bound holds. |
| SchedulerFairness.StayClose | kernel/proc.c:489-585 | Over every run on a fixed set, accumulators stay within 10 of each other. |
| SchedulerFairness.Bypassed | kernel/proc.c:489-585 | A process is passed over at most the sum over the others of how far each is behind it plus one. |
| SchedulerFairness.NoStarvation | kernel/proc.c:489-585 | So it runs within 11 * 63 rounds. |
| SchedulerFairness.Fair | kernel/proc.c:489-585 | Over every run, priority times turns differs between two processes by at most 20: shares are inversely proportional to priority. |
| SchedulerFairness.ZeroStarves | kernel/proc.c:49-63 | The bound needs positive priorities: a least process with priority 0 can be picked for ever. |
| Regex.FirstItem | user/grep.c:84-95 | A pattern matches at a place exactly if its first item takes a piece of the text and the rest matches after it. |
| Regex.ParseIff | user/grep.c:71-95 | Reading a pattern undoes writing it, for every string and every pattern that can be written: '.' is any character, c* a run, a last $ the end, a first ^ the start, and anything else itself. |
| Regex.MatchHere | user/grep.c:84-95 | True exactly if some placement of the items written there starts at that place. |
| Regex.MatchStar | user/grep.c:98-105 | True exactly if some run of accepted characters is followed by a match of the rest. |
| Regex.Match | user/grep.c:71-81 | For the pattern that is written so: true exactly if the text has a placement of its items, at the start if it is anchored and anywhere otherwise. |
| GrepLines.Grep | user/grep.c:10-34 | Prints exactly the matching newline-ended lines before the first that does not fit, however the reads divide the input. |
| GrepLines.PrintsAllIff | user/grep.c:10-34 | It prints all matching lines if and only if none lies at or after one that does not fit. |
| GrepLines.PrintedLines | user/grep.c:10-34 | Line by line: it prints, each with its newline and in order, those that match among the lines before the first that does not fit; a last line without a newline is not printed. |
| GrepLines.Missed | user/grep.c:10-34 | After a line too long for the buffer a matching line is not printed. |
| GrepLines.MissedLine | user/grep.c:10-34 | One such input. |
| ShellGrammar.ReadItems | user/sh.c:444-458 | Words and redirections in any order, with fewer than MAXARGS words: the innermost command has exactly the words, in order, and the redirections are around it in order, the first innermost. |
| ShellGrammar.LineIff | user/sh.c:358-460 | The parser uses the tokens up and gives a command if and only if they are a line, as a grammar apart from the parser says, that stands for this command. |
| ShellGrammar.MeansSome | user/sh.c:358-460 | Every command tree with few enough words and known redirections is what some line stands for, and no other is. |
| ShellSyntax.MapLine | user/sh.c:358-460 | The grammar treats words as they come: parsing positions and parsing texts agree. |
| ShellTokens.Lexes | user/sh.c:279-322 | Tokens laid out with any blanks between them, none where none are needed, are found again, each with its text. |
| ShellTokens.Lays | user/sh.c:279-322 | Every line is laid out in this way, so no line has tokens other than these. |
| ShellTokens.RoundTrip | user/sh.c:341-460 | However a command is written and laid out, parsing uses up the line and gives the command. |
| Shell.Parser.Gettoken | user/sh.c:279-322 | Takes the next token off the input and returns its kind and extent. |
| Shell.Parser.Peek | user/sh.c:324-334 | Says whether the next token begins with one of the symbols, and takes only blanks. |
| Shell.Parser.Parseredirs | user/sh.c:388-411 | Ends on every input; wraps the command in the redirections found, or fails on one without a file, as the grammar says. |
| Shell.Parser.Parseblock | user/sh.c:413-427 | Ends on every input; the line in parentheses with its redirections, or fails without the closing one. |
| Shell.Parser.Parseexec | user/sh.c:429-460 | Ends on every input; the words go to the innermost command however redirections lie between them, and ten of them fail. |
| Shell.Parser.Parsepipe | user/sh.c:375-386 | Ends on every input; pipes associate to the right, and the input left is what the grammar leaves. |
| Shell.Parser.Parseline | user/sh.c:358-373 | Ends on every input; each & wraps what is before it, lists associate to the right, and every word in the result is a maximal run of plain characters. |
| Shell.Nulterminate | user/sh.c:463-507 | Writes a NUL after each word of the command and changes nothing else. |
| Shell.WordReads | user/sh.c:463-507 | Afterwards a word's pointer reads as exactly its own text. |
| Shell.Parsecmd | user/sh.c:341-356 | Succeeds exactly if the line stands for some command; then the command read through its pointers is that one. |
| Shell.ParseWritten | user/sh.c:341-356 | A command, however written and laid out, is read back, through its pointers, as itself. |
| Pipe.RingPush | kernel/pipe.c:91-97 | A byte put in the ring overwrites none that is still to be read. |
| Pipe.Counters | kernel/pipe.c:88-123 | 32-bit counters that wrap give the same slots and tests as ones that do not. |
| Pipe.Pipe.Write | kernel/pipe.c:76-103 | Appends a stretch of the source to the bytes accepted; sleeps exactly when full; -1 exactly if the reader is gone or the writer killed. |
| Pipe.Pipe.Read | kernel/pipe.c:105-130 | Delivers the next bytes in order; returns 0 for n > 0 only if drained with the write end closed or if the first copyout failed. |
| Pipe.Pipe.Close | kernel/pipe.c:58-74 | Closes one end and frees the pipe exactly when both are closed. |

## Left out

- Hardware, assembly, traps, locks as such and memory ordering: a method is what runs between taking a lock and giving it up, and a context switch is one step.
- WriteAheadLog.Log.Commit: a reader outside any transaction, such as fileread, that takes a logged block anew after write_log has copied it.
- FileSystem.FileSystem.Writei: a user copy always succeeds; a copy that fails in the middle of a block changes a cached buffer without logging it.
- The byte layout of inodes on disk: an inode is a record, and several share a block only for the count of logged blocks.
- Links.Inodes.Create: one transaction whose path lookup is done; the parent's link count is below the limit of a short; whether writei can add an entry is a parameter, which `DirectoryBytes.Dirlink` decides.
- Links.Inodes.Link: likewise, for a path lookup done and a link count below the limit of a short.
- Links.Inodes.Dirlookup: entries are records here; the bytes are in `DirectoryBytes.Dirlookup`.
- Links.Inodes.Dirlink: entries are records here and writei a parameter; the bytes are in `DirectoryBytes.Dirlink`.
- DirectoryBytes.Dirlink: the reference that dirlookup takes on an inode it finds.
- skipelem and namex, the limit of NINODE inodes in memory, device numbers, and open file descriptors.
- mkfs: its image is taken as the initial state; it gives the root directory a hole when the size is a block multiple.
- VirtualMemory: flags other than V, R, W, X and U, the kernel's own page table, uvmfirst and uvmclear; a mapping in a range that is already mapped is the "remap" panic.
- VirtualMemory.AddressSpaces.Uvmcopy: the parent's pages are user pages that it owns.
- Umalloc.Heap.Malloc: requests are small enough that the argument of sbrk does not overflow, and what sbrk grants is apart from every block known; the contents of blocks are not modelled.
- VirtioDisk: initialisation of the device, notification, memory barriers and a device that reports failure; the device is a state machine that follows the descriptors in memory.
- Scheduler: what the entry past the table is, and the lock that is released there (kernel/proc.c:501-505); kill, which charges a stale accumulator; the first process, whose priority is 0; several CPUs; wait, which does not free its child; the policy that is commented out.
- Scheduler.Table.Yield: requires that the charge stays below INT_MAX.
- Pipe: wakeups, and how a killed writer leaves its readers asleep.
- Shell: running commands; a redirection keeps its symbol instead of the open mode and descriptor that follow from it, and memory for the tree is not modelled.
- GrepLines.Grep: input without NULs; read returns at least one byte until the input ends.
- The other user programs, the console, and the small system calls.

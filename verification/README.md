# xv6 in Dafny

A model of the hard parts of the xv6 teaching kernel (the variant whose
scheduler has three priority levels) and of three of its user programs, with
proofs of what they are for.  `dafny verify dfyconfig.toml` checks the whole
project.

Concurrent code is a state machine whose steps are the critical sections, disk
writes and sleeps of the source; theorems range over every run.  Beside each
machine stands imperative code, a class with the source's fields, arrays,
links and loops, whose methods are proved to perform exactly the machine's
steps.  `panic` is a precondition where a proof shows that it is not reached,
and an error outcome (`ok == false`) where it can be.

- **Log** (`LogModel`, `LogProofs`, `LogRuns`, `LogHistory`, `LogImpl`): the redo
  log with group commit.  Disk blocks are written one at a time, and a crash
  between any two writes drops all memory; a run may start from any disk with a well-formed
  header, and the log region may be of any size.  An operation logs a block it
  has changed before releasing it, as log.c asks.  That the reservation suffices
  assumes besides that each logs at most MAXOPBLOCKS new blocks (`Budgeted`).
- **Buffer cache and disk drivers** (`BioModel`, `BioRuns`, `BioImpl`,
  `IdeModel`, `IdeImpl`, `StackModel`): the cache refines a plain block map, the
  interrupt-driven driver refines the synchronous one, and `StackModel` puts the
  one on the other with requests in flight.  A holder that changes a buffer must
  mark it dirty or write it before releasing it, as bio.c asks of its callers.
- **Inodes, bitmap, directories, paths, links** (`FsModel`, `FsSteps`,
  `FsImpl`, `DirModel`, `DirImpl`, `PathImpl`, `LinkModel`, `LinkWindow`,
  `SysModel`, `SysImpl`, `FsLog`): block ownership, the write/read law,
  directories as finite maps, path resolution as a fold, link counts.  The system
  calls are proved from the path down to the bytes of the directories: `SysModel`
  says what tree of `LinkModel` a volume stands for, and the calls of `SysImpl`
  are its steps.
  `FsLog` lays a volume out in blocks and puts it on the log: a crash at any point
  leaves the image of a volume with no call in progress.
- **Scheduler** (`ProcModel`, `ProcRuns`, `ProcSteps`, `ProcImpl`): the free list
  and the three ready lists partition the process table, no RUNNABLE process
  starves, and no wakeup is lost.  `setpriority` neither moves a process between
  lists nor checks its argument: runs use it only where `SafePriority` holds, and `SetPriorityExact`
  proves that this is the exact condition.
- **User allocator** (`Malloc`), **page tables** (`VmModel`, `VmImpl`), **pipe**
  (`PipeModel`, `PipeRuns`, `PipeImpl`), **shell parser** (`ShModel`, `ShLex`,
  `ShGrammar`, `ShImpl`), **regular expressions** (`Grep`).

What a machine's step does is not taken from the step alone: `LogHistory`,
`BioRuns`, `ProcSteps` and `PipeRuns` tell from the events of a run what its
states must hold, and prove that they do.

Properties that turned out false of the code, each with an input and the exact
condition under which it holds:

- An operation within its reservation never overflows the log: `log_write`
  tests `lh.n` before it looks for the block.  `PanicExact` gives the condition;
  `NoBudgetedPanic`, `BudgetedPanicReachable` and `AbsorbedPanicReachable` say
  which operations it can hit, in small and in large log regions.
- `setpriority` keeps each process on one list (`SetPriorityExact`,
  `UnsafePriority`, and `UnsafeReachable` for a run from boot).
- A sleeping reader faces an empty pipe: not after a killed writer's section
  (`KilledExact`, `KilledWriter`).
- `deallocuvm` unmaps its whole range (`DeallocExact`, `SparseSpace`,
  `PageSkipped`).
- `allocuvm` maps what it reports (`AllocUvm`, `ShortSpace`, `LastPageMissing`).
- `create` and `link` keep the link counts: not in a directory that has been
  unlinked (`StepExact`, `Orphan`).
- `malloc`'s rounding and `morecore`'s byte count do not wrap (`UnitsExact`,
  `SbrkArgExact`, `Wraps`).

Where intent and code differ the code is followed: the shell opens the file of
`>>` exactly as that of `>`.

## Model

| member | source | states |
|---|---|---|
| `LogRuns.StepInv` | log.c:124-230 | every step of the log and of recovery keeps the invariant that a crash now would recover the committed contents c, and only the header write of commit changes c |
| `LogRuns.RunInv` | log.c:114-230 | that invariant holds in every state of every run from any disk with a well-formed header, crashes and restarts included |
| `LogHistory.Durability` | log.c:124-230 | whenever the machine stops, recovery yields the contents of a moment without operation in progress, no older than the last moment everything had committed and than the last header write, and of every home block that is the data an operation last gave it before then: no committed operation is lost and no part of an unfinished one survives |
| `LogHistory.Survives` | log.c:114-230 | in every run, what is recovered of a home block is the data its events gave it before the last header write, and what is seen of it, unless recovery is under way, the data last given since |
| `LogHistory.WriteSurvives` | log.c:174-199 | data an operation puts in a block, once a header write has followed without a crash, is what the block reads as through any number of crashes until it is changed again |
| `LogHistory.StepSeen` | log.c:124-230 | only an operation's own change alters what is seen of a home block |
| `LogHistory.RunBooks` | log.c:124-171 | in every run the outstanding operations are those begun and not ended since the last crash, and the log's list the blocks logged since the last commit, each once |
| `LogHistory.RunHolders` | bio.c:62-142 | in every run the holder of a buffer is who last took it and has not released it |
| `LogRuns.CommittedSince` | log.c:189-199 | what is recovered are the logical contents at the last header write of commit, or at the last moment with nothing outstanding if there was none since |
| `LogRuns.IdleIsCommitted` | log.c:144-171 | with nothing outstanding, what a crash would recover is exactly what is seen |
| `LogRuns.Reservation` | log.c:125-141 | in every state of every run of operations within their budgets lh.n plus the unused reservations of all outstanding operations is at most LOGSIZE and lh.block[0..n) has no duplicates |
| `LogRuns.HeaderFrozen` | log.c:189-199 | from the start of commit to the reset of lh.n the header in memory does not change and no operation is admitted |
| `LogRuns.PanicExact` | log.c:210-218 | log_write is refused exactly when lh.n is LOGSIZE, or log.size - 1 in a region of at most LOGSIZE blocks, whether the block is in the log already or not |
| `LogRuns.NoBudgetedPanic` | log.c:210-218 | in a region of more than LOGSIZE blocks an operation with slots left is never refused; one that has used all of them is refused exactly when lh.n is LOGSIZE, which within the budget happens only on logging a block again |
| `LogRuns.BudgetedPanicReachable` | log.c:210-218 | in every smaller region some run within the budgets refuses an operation that has slots left |
| `LogRuns.AbsorbedPanicReachable` | log.c:210-218 | in every larger region some run within the budgets refuses an operation that logs one of its blocks again |
| `LogProofs.RecoveredIsCommitted` | log.c:68-121 | recovery of a disk whose log carries the committed blocks, however far installation had gone, yields the committed contents |
| `LogProofs.InstalledAt` | log.c:68-81 | install_trans leaves on each home block the log copy of its entry and touches no other block |
| `LogProofs.StepWriteHead` | log.c:100-112 | writing the header replaces the recoverable contents by the logical contents, all at once |
| `LogProofs.StepInstallOne` | log.c:68-81 | installing one block changes nothing that would be recovered |
| `LogProofs.StepClearHead` | log.c:189-199 | erasing the header after installation changes nothing that would be recovered |
| `LogProofs.StepCrash` | log.c:114-121 | losing all memory changes nothing that would be recovered |
| `LogProofs.StepLogWrite` | log.c:210-230 | log_write, absorbing or appending, keeps the pinned block out of what is recovered until commit |
| `LogProofs.StepEvict` | bio.c:83-94 | evicting a clean unheld buffer changes neither what is seen nor what is recovered |
| `LogImpl.Log.constructor` | log.c:52-65 | initlog on any disk with a well-formed header: an empty log, nothing outstanding, and the committed contents on the home blocks |
| `LogImpl.Log.BeginOp` | log.c:124-141 | admits exactly when no commit runs and the reservation fits, and is then the step BeginOp; otherwise nothing changes |
| `LogImpl.Log.LogWrite` | log.c:210-230 | panics exactly when the log is full, and is otherwise the step LogWrite |
| `LogImpl.Log.Store` | fs.c:478-485 | an operation's write into a buffer it holds is what its block reads as, and a step Modify of the trace |
| `LogImpl.Log.WriteLog` | log.c:174-187 | copies every listed block to its log slot by single writes of the machine, changing nothing that is seen nor any buffer that others hold |
| `LogImpl.Log.WriteHead` | log.c:100-112 | is the commit point: before it the old, after it the new contents are recovered |
| `LogImpl.Log.InstallTrans` | log.c:68-81 | performs exactly the machine's installation of the n entries |
| `LogImpl.Log.Commit` | log.c:189-199 | empties the log, leaves the logical contents on the home blocks, and a crash after any single block write recovers all of the transaction or none of it, decided by the first header write |
| `LogImpl.Log.EndOp` | log.c:144-171 | only the last outstanding operation commits; then the home blocks hold the logical contents with the same all-or-nothing guarantee |
| `LogImpl.Log.ReadHead` | log.c:84-96 | after a crash the header on disk becomes the list to install |
| `LogImpl.Log.RecoverFromLog` | log.c:114-121 | leaves the recovered contents on the home blocks, and a crash at any point of recovery, restarted any number of times, recovers the same |
| `LogImpl.Log.Bread` | bio.c:98-109 | a held buffer with the cached contents, or else the disk's |
| `LogImpl.Log.Crash` | log.c:114-121 | memory is gone and the disk stays |
| `BioModel.StepInv` | bio.c:62-142 | every interleaving of bget, disk transfers, holders' changes and brelse keeps: the list is sorted by recency and holds every buffer once, no block is cached twice, and a valid clean untouched buffer equals its disk block |
| `BioModel.CleanIsDisk` | bio.c:83-94 | a valid, clean buffer that nobody holds equals its disk block |
| `BioModel.VictimIsOldest` | bio.c:83-94 | bget recycles, of the buffers neither busy nor dirty, the one released longest ago |
| `BioRuns.SleepExact` | bio.c:62-96 | in every run from binit a bget sleeps exactly when its block has been taken by a bget and not released since |
| `BioRuns.RecyclesOldest` | bio.c:83-142 | in every run bget recycles, of the buffers neither busy nor dirty, one whose last brelse is the oldest |
| `BioModel.Refines` | bio.c:62-142 | the cache refines a block map: only a holder's change alters what is read, and only of the holder's block |
| `BioModel.RunReads` | bio.c:62-142 | in every run every block reads as the data last written to it |
| `BioModel.HolderReads` | bio.c:99-109 | a held valid buffer holds what its block reads as |
| `BioImpl.Bcache.constructor` | bio.c:39-56 | all buffers are linked and cache nothing |
| `BioImpl.Bcache.Bget` | bio.c:62-96 | is the step Get on the linked list: a hit that sleeps exactly if somebody holds the block, or the recycled victim, held; no other buffer changes |
| `BioImpl.Bcache.Scan` | bio.c:70-81 | finds the cached buffer of the block, if any |
| `BioImpl.Bcache.ScanBack` | bio.c:86-94 | finds the last buffer of the list that is neither busy nor dirty |
| `BioImpl.Bcache.Bread` | bio.c:99-109 | returns a held valid buffer with the block's contents, and no block's contents change |
| `BioImpl.Bcache.Bwrite` | bio.c:112-119 | the disk block takes the buffer's contents and the buffer is clean |
| `BioImpl.Bcache.Brelse` | bio.c:123-142 | the buffer is free again and moves to the front of a doubly linked list that stays well formed; no other buffer changes |
| `BioImpl.Unlink` | bio.c:131-132 | unlinking a node of the ring leaves the ring without it, links and back links |
| `BioImpl.PushFront` | bio.c:133-136 | linking a node behind the head leaves the ring with it in front |
| `IdeModel.StepInv` | ide.c:99-163 | no buffer is queued twice, the head is the controller's request, a queued buffer still needs its transfer, and a waiting caller whose buffer has left the queue has its transfer done |
| `IdeModel.Refines` | ide.c:99-163 | buffers and disk change only at the interrupt, and then as memide's iderw of the head |
| `IdeModel.Linearized` | ide.c:99-163 | every run leaves the buffers and the disk that the synchronous driver would, requests served in the order they came |
| `IdeModel.Served` | ide.c:99-163 | the transfers done are the first requests in the order of the calls, the queue holds the others, and a caller is inside exactly between its call and its return |
| `IdeModel.CallsAtomic` | ide.c:133-163 | a call returns only after its own transfer, which happened exactly once, on the buffer as it was handed in |
| `IdeModel.CacheTransfer` | memide.c:37-59 | the cache's transfer step leaves the buffers and the disk that memide's iderw leaves |
| `StackModel.StepRefines` | ide.c:99-163 | the cache on the queued driver, any number of requests in flight, refines the cache whose transfers happen at once: each interrupt is one transfer of the head, calls and returns change nothing |
| `StackModel.RunRefines` | ide.c:99-163 | every run of the cache on the queued driver is a run of the cache with synchronous transfers |
| `StackModel.RunReads` | bio.c:62-142 | in every run of the cache on the queued driver every block reads as the data last written to it |
| `StackModel.ReturnSynced` | bio.c:98-119 | when iderw returns, the buffer, its disk block and what the block reads as are the same |
| `StackModel.WriteThrough` | bio.c:111-119 | when bwrite's iderw returns, the data the buffer had at the call is on the disk, whatever ran in between |
| `StackModel.UseApart` | bio.c:62-142 | bget, brelse and holders' changes leave every buffer with a request in flight and the disk alone |
| `IdeImpl.Ide.Iderw` | ide.c:133-163 | appends the request to the linked queue and starts the disk if it is alone: the step Rw |
| `IdeImpl.Ide.Append` | ide.c:147-152 | walks the links to the end, so that the chain is the old queue with the request behind it |
| `IdeImpl.Ide.Ideintr` | ide.c:99-128 | takes the head off, completes it as memide's iderw would, and starts the next: the step Intr |
| `IdeImpl.Memide.Iderw` | memide.c:37-59 | the whole transfer at once |
| `FsModel.Ownership` | fs.c:53-93 | under the invariant every marked data block is held by a slot, every slot's block is a marked data block, and no two slots hold the same block |
| `FsModel.FlipOne` | fs.c:53-93 | changing a bitmap byte by the mask of a block changes that block's bit and no other |
| `FsModel.SetBit` | fs.c:63-66 | adding the mask of a clear bit sets that bit and no other, and stays a byte |
| `FsModel.ClearBit` | fs.c:88-90 | taking the mask of a set bit away clears that bit and no other |
| `FsModel.WordPut` | fs.c:372-378 | writing an indirect entry reads back, and every other entry is unchanged |
| `FsSteps.AssignDirect` | fs.c:361-365 | giving a free zeroed block to an empty direct slot or the indirect pointer keeps ownership, and every other slot keeps its block and its data |
| `FsSteps.AssignEntry` | fs.c:368-380 | the same for an entry of the indirect block |
| `FsSteps.WriteData` | fs.c:480-486 | writing a data block changes no other slot's block or data, in any inode |
| `FsSteps.ReleaseDirect` | fs.c:398-403 | freeing a direct block and clearing its slot keeps ownership and every other slot |
| `FsSteps.ReleaseEntry` | fs.c:408-411 | freeing an indirect entry, without clearing it, keeps ownership when freed entries count as empty |
| `FsSteps.ReleaseIndirect` | fs.c:412-414 | freeing the indirect block afterwards restores ownership outright |
| `FsImpl.Fs.Balloc` | fs.c:53-75 | the lowest free block, marked and zeroed, nothing else changed; fails exactly when no block is free |
| `FsImpl.Fs.Bfree` | fs.c:78-93 | clears exactly the block's bit; that the bit is set, so that the panic is not reached, is proved at every call |
| `FsImpl.Fs.Bmap` | fs.c:356-384 | the mapped block of a file block, allocated and zero if it was missing; ownership holds and every other slot of every inode is kept; fails only on a full disk |
| `FsImpl.Fs.Itrunc` | fs.c:391-419 | clears exactly the bits of the blocks the inode held, leaves it empty in memory and on disk, and changes no other inode's bytes |
| `FsImpl.Fs.Readi` | fs.c:434-457 | refused exactly for an offset past the end or a wrapping length; otherwise the bytes asked for up to the end of the file, with nothing changed |
| `FsImpl.Fs.Writei` | fs.c:462-492 | refused exactly past the end or past the largest file; otherwise the bytes become the old ones with the source spliced in, no other inode's bytes change, no holes arise, and the disk inode agrees with the one in memory although it is written only when the size grows; fails only on a full disk and never within the old size |
| `FsImpl.HolesKept` | fs.c:462-492 | with what writei, itrunc and ialloc promise of their inode and of the others, no file ever gets a hole |
| `FsImpl.ReadBack` | fs.c:434-492 | reading where one wrote gives what one wrote, and every other byte is the old one |
| `FsImpl.Fs.Iupdate` | fs.c:199-215 | the disk inode becomes the one in memory and nothing else changes |
| `FsImpl.Fs.Iput` | fs.c:317-336 | the last reference to an unlinked inode frees exactly its blocks and the inode; otherwise only the count changes |
| `FsImpl.Fs.Ialloc` | fs.c:176-195 | the first inode of type 0, cleared and typed, ownership kept; fails exactly when there is none |
| `DirModel.Namecmp` | fs.c:497-501 | zero exactly for names equal when cut at a NUL and to 14 bytes |
| `DirModel.FieldCut` | string.c:68-79 | what strncpy stores in an entry reads back as the cut name |
| `DirModel.EncodeDecode` | fs.h:52-55 | an entry read back from its 16 bytes is the entry |
| `DirModel.SpliceEntry` | fs.c:553-555 | writing 16 bytes at an entry's place replaces that entry, or appends it, and no other |
| `DirModel.NamesSpec` | fs.c:505-529 | with distinct names the map holds exactly the live entries |
| `DirModel.LookupSpec` | fs.c:505-529 | a lookup succeeds exactly when the map has the cut name, with the map's inode |
| `DirModel.PutSpec` | fs.c:532-558 | filling an empty entry adds exactly one name to the map and keeps names distinct; inode number 0 adds none |
| `DirModel.EraseSpec` | sysfile.c:215-217 | zeroing an entry removes exactly its name from the map |
| `DirImpl.Dirlookup` | fs.c:505-529 | on the bytes of a directory: the map's inode and its entry's place, or nothing exactly when the map lacks the name; nothing changes |
| `DirImpl.Dirlink` | fs.c:532-558 | refused exactly when the map has the name; otherwise the map gains the cut name with the inode number in 16 bits, and no other inode changes; fails only on a full disk or a directory of the largest size |
| `DirImpl.Erase` | sysfile.c:215-217 | the map loses exactly the entry's name, and no other inode changes |
| `DirImpl.Isdirempty` | sysfile.c:165-178 | with the dot entries in front: true exactly when the map has the two dots alone |
| `PathImpl.Skipelem` | fs.c:576-600 | takes the first component off, cut to 14 bytes; there is none exactly when the path has no component, and the rest is empty exactly at the last one |
| `PathImpl.SkipSpec` | fs.c:576-600 | slashes, a run of other characters and slashes again are exactly the first component |
| `PathImpl.Namex` | fs.c:605-638 | panics exactly when it comes to lock an inode of type 0; otherwise the fold of the directory maps over the path's components from the root or the current directory; for the parent, the fold over all but the last, which must reach a directory, and the last name cut |
| `PathImpl.FoundStep` | fs.c:615-632 | taking one component off and moving to the child keeps the result of the fold |
| `LinkModel.StepInv` | sysfile.c:115-281 | create, link with its rollback, unlink and the final iput keep every link count and the shape of the tree, if entries are added to linked directories only |
| `LinkModel.StepExact` | sysfile.c:115-281 | a call keeps every link count if and only if it adds its entry, if any, to a linked directory |
| `LinkModel.CreateExact` | sysfile.c:238-281 | create, of a file or a directory, keeps every count exactly when the parent directory is linked |
| `LinkModel.Orphan` | sysfile.c:238-281 | a run from an empty root directory, with a file created in a directory unlinked while in use, that ends with a file that has a link and no name |
| `LinkModel.Conservation` | sysfile.c:115-281 | after every sequence of such calls from an empty root directory each inode's nlink is the number of entries other than "." naming it in linked directories |
| `LinkWindow.StepSettles` | sysfile.c:116-162 | with sys_link taken apart into its two critical sections, the tree without the pending links changes as if each sys_link happened whole at the step that writes its entry |
| `LinkWindow.OpenConservation` | sysfile.c:116-162 | at every step of every safe run, sys_link calls half done included, nlink is the number of entries naming the inode plus the links pending for it, and an inode with a link pending is a file in use |
| `LinkWindow.PendingCount` | sysfile.c:137-148 | the count that sys_link raises ahead of its entry is exactly one for each call under way |
| `LinkWindow.FreeSettles` | fs.c:317-336 | the iput that frees an inode finds no sys_link of it under way |
| `LinkModel.UnlinkedDir` | sysfile.c:219-226 | an empty directory that is unlinked ends with nlink 0 |
| `LinkModel.EmptyDirNamedOnce` | sysfile.c:208-226 | an empty directory is named by one entry alone, its parent's |
| `LinkModel.ParentNamedTwice` | sysfile.c:219-222 | a directory with a linked subdirectory has nlink 2 or more, so unlinking the child leaves it linked |
| `LinkModel.Rollback` | sysfile.c:155-161 | sys_link's failure path leaves everything as it was |
| `LinkModel.LinkExact` | sysfile.c:115-161 | linking into a directory keeps every count exactly when that directory is itself linked |
| `LinkModel.FreeInv` | fs.c:317-336 | freeing an inode without links keeps every count |
| `LinkModel.FreshInv` | mkfs.c:117-128 | the root directory mkfs makes, with its two dot entries, satisfies the invariant |
| `LinkModel.NlinkPositive` | sysfile.c:206-207 | the panic "unlink: nlink < 1" is not reached |
| `SysModel.EntryIs` | fs.c:505-529 | a key is in the tree exactly when the decoded bytes of the directory have its name, with the same inode |
| `SysModel.FreshFits` | mkfs.c:117-128 | a volume with a root directory alone stands for the first tree |
| `SysModel.RenumberedFits` | fs.c:199-215 | iupdate of a link count is that change of the tree alone |
| `SysModel.AddedFits` | fs.c:532-558 | a name added to a directory's bytes is that entry added to the tree, with the dots still in front |
| `SysModel.RemovedFits` | sysfile.c:215-217 | an entry cleared in the bytes is that entry removed from the tree |
| `SysModel.DotsFits` | sysfile.c:267-273 | two dirlinks on an empty directory inode make a directory with its dots in front |
| `SysModel.FreedFits` | fs.c:317-336 | freeing an inode removes it and its entries from the tree |
| `SysModel.FoundSame` | sysfile.c:137-142 | path resolution does not depend on link counts, so raising the count before resolving the new path changes nothing |
| `SysModel.OnlyEmpty` | sysfile.c:165-178 | isdirempty's answer on the bytes is emptiness in the tree |
| `SysImpl.Sys.SysLink` | sysfile.c:115-161 | on paths and bytes: exactly the step Link of the inode, directory and name the two paths lead to, its rollback included; the inode's record gains one link, the directory another entry, and no other record or file changes; 0 exactly when the new path has a parent, the inode is no directory and the name is free; the panics named |
| `SysImpl.Sys.SysUnlink` | sysfile.c:181-236 | on paths and bytes: exactly the step Unlink, link counts kept; the inode's record loses a link, and the directory's if it was one, and no other record or file changes; on refusal nothing changes, and the only panic left is ilock's on the way |
| `SysImpl.Sys.Create` | sysfile.c:238-281 | on paths and bytes: exactly the step Create with the first free inode, dots and all; its record has the type and device numbers asked for, one link and, unless a directory, no bytes and no blocks, and no other record or file changes but the parent's; an existing file when a file is asked for, or 0; the panics named |
| `SysImpl.Sys.Put` | fs.c:317-336 | the last reference to an inode without links is the step Free, which leaves its record free and empty and every other as it was; any other reference changes nothing |
| `FsLog.CrashSound` | log.c:114-230 | for every run of the log in which calls change a volume block by block, and overlapping calls together keep it sound: if the machine stops, recovery yields on every home block the image of a sound volume, the one at the last header write, when no call was in progress |
| `FsLog.AtomicCall` | log.c:114-230 | a crash at any moment of a call leaves the volume as it was before the call, and a crash after it, before the next call, all of it or nothing |
| `FsLog.QuietSound` | log.c:144-199 | whenever no call is in progress the volume is sound, and so is always the one a crash would leave |
| `FsLog.ToldImage` | fs.c:199-215 | the data given to a block is always the image of the volume that the updates so far have made |
| `FsLog.ApplyOne` | fs.c:199-215 | an update of a block or of an inode changes the image of its own block alone |
| `FsLog.ImageExact` | fs.h:28-47 | the image tells the volume: equal images have equal inodes and equal bitmap, indirect and data blocks |
| `ProcRuns.StepInv` | proc.c:22-729 | every critical section keeps the partition: the free list holds exactly the UNUSED slots and ready list q exactly the RUNNABLE slots of priority q, each once |
| `ProcRuns.RunInv` | proc.c:541-589 | the partition holds in every state of every run |
| `ProcRuns.Starvation` | proc.c:541-589 | in every run a RUNNABLE process is chosen within TimeToReset + 1 + 101 * 63, at most 6464, scheduler decisions |
| `ProcRuns.WaitStep` | proc.c:541-589 | every step leaves the measure of how long a RUNNABLE process may still wait no larger, and every decision that picks another makes it smaller |
| `ProcRuns.SetPriorityExact` | proc.c:22-36 | setpriority keeps the table sound exactly when a RUNNABLE target keeps its priority and a RUNNING or SLEEPING one gets 0..2 |
| `ProcRuns.UnsafePriority` | proc.c:22-36 | otherwise: the head of list 1 moved to priority 2 by hand is run while it stays queued, and list 2 is emptied |
| `ProcRuns.UnsafeReachable` | proc.c:22-36 | such a table is reached from boot by a run of safe steps |
| `ProcModel.ResetPart` | proc.c:41-107 | the priority reset keeps the partition |
| `ProcModel.ChosenFacts` | proc.c:226-239 | GetReady's choice is RUNNABLE and the head of the list of its own priority |
| `ProcImpl.PTable.constructor` | proc.c:316-336 | all slots are on the free list and all ready lists are empty |
| `ProcImpl.PTable.AddFreeList` | proc.c:110-132 | links the slot in front of the free list |
| `ProcImpl.PTable.RemoveFreeList` | proc.c:138-151 | takes the first slot, or none exactly when the list is empty |
| `ProcImpl.PTable.AddReadyList` | proc.c:158-183 | links a RUNNABLE slot behind the list of its priority; refused exactly for other slots |
| `ProcImpl.PTable.RemoveReadyList` | proc.c:189-220 | unlinks the slot wherever it stands on the list of its priority; refused exactly when that list is empty |
| `ProcImpl.PTable.ResetPriority` | proc.c:41-107 | sets all priorities to 1 and appends lists 0 and 2 behind list 1 on the links |
| `ProcImpl.PTable.GetReady` | proc.c:226-239 | the head of the first nonempty ready list, or none |
| `ProcImpl.PTable.Decide` | proc.c:553-585 | one turn of the scheduler: the timer or the reset, then the chosen process runs and is on no list |
| `ProcImpl.PTable.AllocProc` | proc.c:264-290 | the locked part of allocproc: the first free slot becomes EMBRYO |
| `ProcImpl.PTable.UndoAlloc` | proc.c:283-291 | an EMBRYO goes back to the free list |
| `ProcImpl.PTable.StartChild` | proc.c:393-442 | the child becomes RUNNABLE with priority 1 on list 1 |
| `ProcImpl.PTable.YieldProc` | proc.c:612-620 | the running process joins the list of its priority |
| `ProcImpl.PTable.SleepOn` | proc.c:645-678 | the running process sleeps on its channel and is on no list |
| `ProcImpl.PTable.Wakeup1` | proc.c:683-694 | slot by slot: exactly the sleepers on the channel become RUNNABLE and join the ready lists of their priorities in slot order; nothing else changes |
| `ProcSteps.WakeExact` | proc.c:683-694 | wakeup1 makes exactly the sleepers on the channel RUNNABLE, each list gaining its own in slot order |
| `ProcSteps.SleepersSpec` | proc.c:683-694 | the slots gained are in increasing order and are just those that sleep on the channel at that priority |
| `ProcSteps.ExitExact` | proc.c:469-487 | exit changes the table exactly so: a zombie, children passed to init, who sleeps on the parent woken, who sleeps on init woken if and only if a child is a zombie |
| `ProcSteps.NoLostWakeup` | proc.c:645-694 | in every run a process that went to sleep on a channel sleeps on it until the first wakeup of the channel, kill of it or exit that concerns it, and is then RUNNABLE on its ready list |
| `ProcSteps.PidsDistinct` | proc.c:264-290 | in every run from boot no two processes have the same pid |
| `ProcSteps.KillExact` | proc.c:707-731 | kill marks the one process that has the pid, wakes it if it sleeps, and leaves the others alone |
| `ProcSteps.DecideExact` | proc.c:541-588 | a decision runs the first process of the best ready list, counts the timer down or resets every priority, and changes nothing else |
| `ProcImpl.PTable.ExitProc` | proc.c:447-487 | slot by slot and list by list: the process becomes a ZOMBIE, its children are passed to init, sleepers on the parent are woken, and those on init exactly if a child is a ZOMBIE |
| `ProcImpl.PTable.WaitScan` | proc.c:491-531 | reaps the first ZOMBIE child, or tells exactly whether there are children |
| `ProcImpl.PTable.KillPid` | proc.c:708-729 | marks the process and wakes it if it sleeps; -1 exactly when there is none |
| `ProcImpl.PTable.SetPriorityPid` | proc.c:22-36 | for any pid and value: just that priority changes, and the table stays sound exactly under the condition |
| `Malloc.UnitsExact` | umalloc.c:69 | the units computed hold the bytes asked for, with less than a unit to spare, exactly when the rounding does not wrap |
| `Malloc.SbrkArgExact` | umalloc.c:54 | morecore asks sbrk for the units it wants exactly below 2^28 units, and to shrink the process above |
| `Malloc.Wraps` | umalloc.c:46-69 | a request and a number of units at which they fail |
| `Malloc.BlocksDisjoint` | umalloc.c:24-90 | distinct free and live blocks do not overlap |
| `Malloc.UnitsCovered` | umalloc.c:24-90 | the blocks cover exactly the units obtained from sbrk |
| `Malloc.Heap.constructor` | umalloc.c:21-22 | before the first call nothing is obtained and nothing is live |
| `Malloc.Heap.Store` | umalloc.c:63-90 | what the program stores into the memory malloc gave it keeps the whole invariant |
| `Malloc.PayloadSound` | umalloc.c:63-90 | no unit behind a live block's header is a word of the allocator's |
| `Malloc.Heap.Locate` | umalloc.c:29-31 | the search of free ends, at the block after which the freed one belongs in address order |
| `Malloc.Heap.Free` | umalloc.c:24-43 | the freed block leaves the live ones, the list stays one increasing cycle through base without adjacent blocks, free and live blocks tile the same units, and the memory of every live block is untouched |
| `Malloc.FreeSound` | umalloc.c:32-42 | linking the block in and merging upwards and downwards restores the invariant, merged exactly where blocks touched |
| `Malloc.Heap.MoreCore` | umalloc.c:46-60 | NULL exactly when sbrk refuses; otherwise at least 4096 units join the heap and freep or its successor is large enough |
| `Malloc.Heap.FindFit` | umalloc.c:74-89 | the search of malloc ends, asking for memory at most once and only when no free block is large enough |
| `Malloc.Heap.Alloc` | umalloc.c:63-90 | a block of exactly the units asked for, disjoint from every live block, whose memory is untouched, the invariant kept; NULL exactly when no free block fits and sbrk refuses, and then nothing is lost |
| `Malloc.TakeSound` | umalloc.c:76-77 | taking a whole block off the list keeps the invariant |
| `Malloc.SplitSound` | umalloc.c:78-82 | cutting the tail off a larger block keeps the invariant |
| `VmModel.Injective` | vm.c:249-292 | under the invariant two user pages never share a frame, and none is a page table or the directory |
| `VmModel.AddTable` | vm.c:50-64 | adding an empty page table changes no mapping and keeps ownership |
| `VmModel.MapEntry` | vm.c:70-89 | entering a page changes exactly that mapping, and a user page owns its fresh frame |
| `VmModel.UnmapEntry` | vm.c:260-271 | clearing a user page's entry changes exactly that mapping and releases its frame |
| `VmImpl.Vm.Kalloc` | kalloc.c:82-95 | the head of the free list, or 0 exactly when it is empty |
| `VmImpl.Vm.Kfree` | kalloc.c:59-77 | a page that is not free becomes the head of the free list; that it is not free is proved at every call |
| `VmImpl.Vm.Walk` | vm.c:45-65 | finds, or on request adds, the page table; no mapping changes, no frame is lost |
| `VmImpl.Vm.MapPage` | vm.c:70-89 | exactly the page's mapping changes, to the frame with its flags; no remap; fails only without a free frame for the table |
| `VmImpl.Vm.DeallocUvm` | vm.c:249-273 | frees each reached page once, unmaps it, and changes nothing else; no frame is lost |
| `VmImpl.DeallocExact` | vm.c:249-273 | the whole range is unmapped exactly when no mapped page lies where the 4MB skip passes over; a directory-aligned start or a present first table is enough |
| `VmImpl.SparseSpace` | vm.c:249-273 | a space whose one user page is skipped when the range starts unaligned in a missing table |
| `VmImpl.PageSkipped` | vm.c:249-273 | there deallocuvm leaves the page mapped |
| `VmImpl.PhaseSkip` | vm.c:260-263 | the skip passes only pages without a page table, and the pages it is said to miss |
| `VmImpl.Vm.FreeVm` | vm.c:277-292 | every frame of the address space, user pages, tables and directory, goes to the free list exactly once, and no other frame changes |
| `VmImpl.Vm.SetupKvm` | vm.c:128-144 | a fresh directory that maps exactly the kernel's ranges and no user page, on frames that were free; it fails exactly when the free frames are fewer than the directory and the page tables need, and then all of them are gone |
| `VmImpl.Vm.CopyUvm` | vm.c:309-337 | on success the child has the parent's flags and bytes on every page of [0, sz), in frames that were free and are pairwise distinct, the kernel's part is setupkvm's, and the parent is unchanged; on failure after setupkvm every frame comes back but at most the one page that could not be mapped; success, and whether a page is lost, are decided by the free frames before the call |
| `VmImpl.Vm.AllocUvm` | vm.c:220-243 | decided before the call: with a frame for every page and every missing page table, every page of the range is a fresh zeroed page; with one too few and the last page alone in a missing table, success with that page unmapped; otherwise 0 and the mapping as before; a frame is lost, to the space and the free list both, exactly when the frames run out between a page and its page table |
| `VmImpl.ShortSpace` | vm.c:220-243 | an empty directory and one free frame meet the second condition |
| `VmImpl.LastPageMissing` | vm.c:220-243 | there allocuvm reports success for a page that is not mapped |
| `PipeModel.StepInv` | pipe.c:58-120 | every section of a reader, writer or close, and every kill, keeps the ring's bytes and the sleeping writers' condition |
| `PipeModel.Protocol` | pipe.c:58-120 | over every run bytes come out in the order they went in, a sleeping writer implies full and read-open, and the memory is freed only with nobody inside; over every run of safe writes a sleeping reader implies empty and write-open, so never both sleep |
| `PipeModel.Tests` | pipe.c:84-105 | the full and empty tests are right across wraparound of the 32-bit counters |
| `PipeModel.StoreRing` | pipe.c:92 | storing a byte keeps the unread bytes of the ring, whatever the counters have wrapped to |
| `PipeModel.FetchRing` | pipe.c:115 | fetching takes the oldest unread byte |
| `PipeModel.ReadReturns` | pipe.c:99-120 | a read returns the next bytes in order, as many as asked or all there are |
| `PipeModel.WriteStores` | pipe.c:77-97 | a writer's section stores its bytes in order up to the first that does not fit, and ends returned, asleep or, killed or without a reader, with nobody woken |
| `PipeModel.KilledExact` | pipe.c:83-91 | a step keeps sleeping readers on an empty pipe exactly when it is no write, first section or resumed, by a killed process of more bytes than the pipe holds while a reader sleeps |
| `PipeModel.KilledWriter` | pipe.c:83-91 | a run in which a writer is killed in its sleep, goes on, and leaves a reader asleep before a full pipe |
| `PipeImpl.PipeBuf.constructor` | pipe.c:30-36 | an empty pipe with both ends open |
| `PipeImpl.PipeBuf.Fill` | pipe.c:83-96 | the writer's loop is the machine's section; it returns the length exactly when all bytes are stored, and else -1 or sleeps |
| `PipeImpl.PipeBuf.Write` | pipe.c:77-97 | is the step Write; it sleeps exactly when the bytes do not fit, a reader is there and the caller is not killed, and returns the length exactly when they fit, else -1 |
| `PipeImpl.PipeBuf.WriteOn` | pipe.c:84-96 | is the step after a wakeup, with the same outcome for the bytes left |
| `PipeImpl.PipeBuf.Read` | pipe.c:99-120 | is the reader's section: it sleeps exactly on an empty write-open pipe, unless killed, when it returns -1; else it returns the bytes fetched |
| `PipeImpl.PipeBuf.Close` | pipe.c:58-74 | the end is closed and nobody of the other side sleeps any more; the memory is freed exactly when both ends are closed, with nobody inside |
| `PipeRuns.RunEnds` | pipe.c:58-74 | in every run an end is open exactly while it has not been closed, and a process is killed exactly once it has been |
| `PipeRuns.KilledAwake` | pipe.c:77-121 | in every run a killed process does not sleep in the pipe |
| `PipeRuns.ReadAfterClose` | pipe.c:100-121 | once the write end is closed no read sleeps: it returns the bytes left, as many as it wants, and none exactly when all have been read |
| `PipeRuns.RunCalls` | pipe.c:77-121 | in every run a call goes on where it left off: a writer behind the bytes it has put in, a reader with the number it wants |
| `PipeRuns.WriteReturns` | pipe.c:77-97 | a write that returns has put in all of its bytes in order, over however many sections; or the pipe is full and the reader gone or the writer killed |
| `ShModel.RoundTrip` | sh.c:439-541 | parsing a printed tree gives the tree back, for every tree with at most nine words per command |
| `ShModel.RoundLine` | sh.c:439-454 | so does parseline in any context, leaving what follows |
| `ShModel.RoundPipe` | sh.c:456-467 | so does parsepipe |
| `ShModel.RoundExec` | sh.c:494-541 | so do parseexec and parseblock, redirections included |
| `ShModel.RedirsPrint` | sh.c:469-492 | parseredirs takes exactly the redirections printed, in order |
| `ShModel.ArgsPrint` | sh.c:524-539 | the argument loop takes exactly the words and the redirections behind them |
| `ShLex.TextRoundTrip` | sh.c:360-541 | printing a tree as text, lexing it and parsing it gives the tree back, every word where it was printed |
| `ShLex.LexRender` | sh.c:360-403 | lexing rendered tokens, >> among them, gives the tokens, with every word where it was put |
| `ShGrammar.ParseExact` | sh.c:422-545 | the shell accepts a text exactly when its tokens are a phrase of the grammar, redirections with <, > or >> anywhere among the words, and gives it that phrase's meaning |
| `ShGrammar.Accepts` | sh.c:422-545 | every phrase parses to its meaning |
| `ShGrammar.LineTaken` | sh.c:439-545 | whatever the parser takes is a phrase, with the meaning it returns |
| `ShGrammar.ArgsTakes` | sh.c:510-545 | parseexec takes words and redirections in any order, the redirections in the order written |
| `ShGrammar.RedirsTakes` | sh.c:469-492 | parseredirs takes redirections of all three kinds, >> as an output like > |
| `ShLex.PlacePrint` | sh.c:360-541 | printing the placed tree gives the tokens at the places rendering puts them |
| `ShImpl.Shell.Gettoken` | sh.c:360-403 | moves the cursor over exactly the next token of the text and returns its kind and, for a word, its ends |
| `ShImpl.Shell.Peek` | sh.c:405-415 | tells exactly whether the next token begins with one of the symbols, and consumes no token |
| `ShImpl.Shell.Parseredirs` | sh.c:469-492 | parses exactly as the grammar on the tokens ahead, panics included |
| `ShImpl.Shell.Parseexec` | sh.c:510-541 | parses exactly as the grammar on the tokens ahead, panics included |
| `ShImpl.Shell.Parseblock` | sh.c:494-508 | parses exactly as the grammar on the tokens ahead, panics included |
| `ShImpl.Shell.Parsepipe` | sh.c:456-467 | parses exactly as the grammar on the tokens ahead, panics included |
| `ShImpl.Shell.Parseline` | sh.c:439-454 | parses exactly as the grammar on the tokens ahead, panics included, and ends because every round consumes input |
| `ShImpl.Shell.Nulterminate` | sh.c:544-588 | writes a NUL behind every word of the tree and changes nothing else |
| `ShImpl.Shell.Parsecmd` | sh.c:422-437 | succeeds exactly when the grammar takes the whole text, and then every argv and file pointer reads as exactly its word |
| `ShImpl.TerminatedReads` | sh.c:544-588 | no NUL lands inside a word: each pointer of a parsed tree reads as the lexed word |
| `ShImpl.LineGood` | sh.c:439-454 | the words of a parsed tree are whole words of the text |
| `Grep.MatchHere` | grep.c:84-96 | true exactly when the pattern's meaning matches some stretch beginning here |
| `Grep.MatchStar` | grep.c:98-106 | true exactly when some run of the repeated character is followed by a match of the rest |
| `Grep.Match` | grep.c:72-82 | true exactly when some stretch of the text has the pattern's meaning, beginning at the start after ^ |
| `Grep.RepRun` | grep.c:98-106 | a repeated character means exactly the runs of characters that fit it |
| `Grep.StarParts` | grep.c:88-89 | c* followed by a pattern means: skip some run of c, then the pattern |
| `Grep.AtomParts` | grep.c:92-93 | a pattern that begins with one character means: that character or any for a dot, then the rest |

## Left out

- Device and hardware code, trap handling, boot, locks and context switches: each critical section is one atomic step.
- The superblock, and the bytes of inode blocks inside `FsImpl`: there inodes on disk are records, and `FsLog` lays them out.
- The inode cache's slots and reference counts (iget, idup, ilock): an operation gets its in-memory inode as an object; iput's count is modelled.
- File descriptors, system-call arguments and the device branch of readi and writei.
- mkfs beyond the layout constants and the first directory: the file-system model starts from any volume that satisfies its invariant.
- The placement of kmem's links inside the free pages: the free list is a sequence of frames.
- The command nodes of the shell as heap objects: trees are values; the buffer that nulterminate writes into is an array.
- Running commands in the shell, grep's line buffering, exec, and the remaining user programs.
- copyout, loaduvm, inituvm, clearpteu.
- Malloc.Heap.Alloc: requires fewer than 2^28 units, because beyond that morecore hands sbrk a negative count (SbrkArgExact).
- Malloc.Heap.Free: requires a live block, as the source does; freeing anything else is undefined there.
- FsImpl.Fs.Writei: requires a file without holes; HolesKept says that no operation makes one.
- FsImpl.Fs.Readi: requires a file without holes, likewise.
- DirImpl.Isdirempty: requires the two dot entries in front; the calls of SysImpl keep them there in every directory.
- PathImpl.Namex: does not model the reference counts it takes and drops.
- LogImpl.Log.EndOp: requires that the blocks the commit takes are not held by a reader, where bread would sleep; buffers of other blocks may be held. So do Commit, WriteLog, WriteHead and InstallTrans.
- LinkModel.StepInv: has the hypothesis that entries are added to linked directories only, which sysfile.c does not check; StepExact proves it exact.
- LinkModel.Conservation: has the same hypothesis on every call of the run.
- LinkWindow.OpenConservation: has it on every call and on every entry sys_link writes.
- SysImpl.Sys.SysUnlink: requires right link counts, which it keeps.
- FsLog.CrashSound: that calls write updates of the volume and keep it sound are hypotheses on the run; the second is what SysImpl proves of each call.
- ProcSteps.PidsDistinct: pids are unbounded; that they wrap after 2^31 processes is not modelled.
- VmImpl.Vm.SetupKvm: the kernel's ranges are a parameter, in whole pages.
- VmImpl.Vm.DeallocUvm: requires oldsz up to KERNBASE, as every caller ensures.
- PipeModel.Protocol: an end is closed only with no user inside a call, which the reference counts of file.c provide; the hypothesis on killed writers stands only in its second part and is exact (KilledExact).
- BioModel.StepInv: a released buffer must not have been changed since it was marked dirty or written, which bio.c asks of its callers.
- StackModel.RunReads: has the same demand on releases; an operation inside iderw does nothing else with its buffer, as in the source.
- IdeModel.StepInv: without device errors; a failed read is not modelled.
- ProcRuns.Starvation: counts scheduler decisions; fairness of the hardware timer is not modelled.

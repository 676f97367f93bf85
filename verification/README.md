# xv6, verified in part

A model of the parts of this xv6 (x86, with a lottery and a priority scheduler) whose correctness is hard to see, and
proofs of what those parts promise. Each component is one or two modules. Code that the system runs by updating things
in place is a class with methods proved against functions and predicates on values; grammars, recurrences and languages
are functions. `Common` holds what several modules share.

| files | component | main results |
|---|---|---|
| `LogSpec`, `LogCode`, `LogRuns`, `LogLimits` | write-ahead log (log.c) | crash atomicity, whole-run durability, and exactly how large the log must be for it |
| `FsSpec`, `FsImage`, `FsCode` | file blocks (fs.c, file.c) | every block owned once, a write is a splice, an operation stays in its allowance and has every block it changes in the transaction, exactly when the blocks suffice |
| `BufferCache` | buffer cache (bio.c) | one buffer per block, LRU ring, bread returns the newest contents |
| `Links` | link counts (sysfile.c, fs.c) | count = names, and exactly when the code keeps it; no inode is lost |
| `VmSpec`, `VmCode` | address spaces (vm.c, kalloc.c) | page conservation, copyuvm, freevm, deallocuvm, the rights the hardware grants, exactly when memory suffices |
| `Umalloc` | user allocator (umalloc.c) | sorted circular list, units conserved, termination, the overflow limits, when a request kills the process |
| `ShellSpec`, `ShellGrammar`, `ShellCode` | shell parser (sh.c) | it accepts exactly the lines of a grammar and returns what they mean, down to the terminated buffer |
| `Procs` | exit and wait (proc.c) | no lost wakeup, each process that exits is reported once, to its parent |
| `Pipe` | pipes (pipe.c) | bytes in order across counter wrap-around, no sleeper forgotten |
| `Lottery` | lottery scheduler (proc.c, rand.c) | exact shares |
| `Mersenne` | MT19937 (rand.c) | in-place update = recurrence, its step can be undone, tempering is a bijection |
| `Regex` | grep's matcher (grep.c) | match = language |

Concurrency is modelled as steps in `LogRuns`, `BufferCache`, `Procs` and `Pipe`: one method (or one constructor of
`LogRuns.Step`) is what a process does between getting and giving up the lock that guards the data, or a single access it
makes without that lock, as `log_write` does; the invariants are proved of every step, hence of every interleaving. A
method of `Links` is a whole system call, which on its way takes and releases several inode locks; only `sys_link`, which
lets go of the file in between, is two steps. `FsCode` and `VmCode` are sequential: bmap, writei, filewrite, copyuvm and
allocuvm each take and release several locks, and are proved for one process at a time. Addresses are numbers: frame
numbers, block numbers, units of eight bytes, table indices.

In contracts, `P == true` says no more than `P`: it keeps a predicate of many conjuncts one proof obligation.

Where a promise turned out not to hold of the code, the exact condition is proved and an example given:

- `log_write` looks at the size of the transaction before it takes the lock (log.c:218, 223), so two operations can both
  pass with one slot left. Entries past the log area can be reached if and only if 2 <= log.size <= LOGSIZE
  (`LogLimits.OverrunIff`), and what is committed survives every crash of every run if and only if log.size > LOGSIZE, or
  is 1 and the log takes no entry (`LogLimits.DurabilityIff`, `LogLimits.OverwritesHome`). mkfs.c:25 makes the log exactly
  LOGSIZE blocks. The model does not bound the number of buffers; with NBUF == LOGSIZE of them, as in param.h:12, a commit
  of that size stops in bget's panic before it writes.
- An operation with allowance left can meet the panic of `log_write` if and only if log.size <= LOGSIZE
  (`LogLimits.ReservationSoundIff`, `LogLimits.PanicReached`). With a larger log a call panics if and only if LOGSIZE blocks
  are logged; then its block is one of them, and no operation has anything left of its allowance
  (`LogLimits.PanicsIffFull`). That happens, too (`LogLimits.AbsorbedPanic`). In these runs operations log ten new blocks
  each: what the interface allows, not what some system call is shown to use.
- `create` and `sys_link` do not check that the directory still has links; the counts stay right if and only if it does
  (`Links.CreateKeepsIff`, `Links.LinkDoneKeepsIff`, `Links.RemovedDirectoryExample`,
  `Links.RemovedDirectoryLinkExample`).
- `malloc` returns enough room if and only if nbytes <= 2^32 - 8 (`Umalloc.RoomForIff`, `Umalloc.OverflowExample`). Its
  heap stays within what `sbrk` gave if and only if the request in units, times 8, is below 2^31
  (`Umalloc.Allocator.Malloc`); from there on sbrk takes it for a negative number and shrinks the process or leaves it as
  it is. The process dies of that exactly when its end is at a page boundary or is taken below one (`Umalloc.DiesIff`):
  then the page for the new header (umalloc.c:57-58) is missing, or, if the request cancels the size of the process
  exactly, every page is (proc.c:223-226; `Umalloc.LostMemory`, `Umalloc.FaultsAtHeader`). Otherwise it goes on with
  memory it never got, as after malloc(40000) and malloc(2^31) (`Umalloc.MadeUpMemory`).
- A killed writer that finds the pipe full returns without waking readers; a sleeper is forgotten exactly when it had
  more bytes than fit and a reader slept (`Pipe.PipeBuf.Write`, `Pipe.ForgottenReader`).

The shell has a token of its own for `>>`, but opens the file with the same flags as for `>`; so does the model.

## Model

| member | source | states |
|---|---|---|
| `LogSpec.HeaderRoundTrip` | log.c:86-113 | what write_head puts in the header block, read_head reads back: the count and every home block number |
| `LogSpec.InstallAt` | log.c:70-82 | after install_trans of the first n entries a home block has its logged contents if one of them names it, else what it had |
| `LogSpec.RecoveredAt` | log.c:116-122 | recovery gives every logged home block its logged contents and leaves every other one |
| `LogSpec.RecoveredClears` | log.c:116-122 | a recovered disk has an empty log |
| `LogSpec.CrashDuringRecovery` | log.c:116-122 | a crash after any number of recovery's disk writes leaves a disk that recovers to the same home blocks |
| `LogSpec.RepeatedCrashes` | log.c:116-122 | any number of recoveries, each cut off anywhere, still recover to the home blocks of the first disk |
| `LogSpec.SealedRecovers` | log.c:193-202 | once the header is on disk, recovery gives the home blocks the whole transaction |
| `LogSpec.UnsealedCrash` | log.c:178-190 | before the header is written, any log-area contents recover to the old home blocks |
| `LogSpec.CommitCrash` | log.c:193-202 | for a crash after any prefix of commit's disk writes, what recovery yields is all old or all new, split exactly at the header write |
| `LogSpec.CommitAtomic` | log.c:193-202 | over the list of all disk images of a commit: every one recovers to the old or to the new home blocks, never a mixture, and once new always new |
| `LogSpec.CommitFinishes` | log.c:193-202 | the last image of a commit has the transaction in its home blocks and an empty log |
| `LogSpec.RecoveryAtomic` | log.c:116-122 | every disk image during recovery recovers to the same home blocks as the one it began with |
| `LogCode.Log.CopyToLog` | log.c:178-190 | one turn of write_log puts the cached block in its log slot and nothing else |
| `LogCode.Log.WriteLog` | log.c:178-190 | write_log fills the log area with the cached contents of the logged blocks; the disk images it passes through are the specified ones |
| `LogCode.Log.WriteHead` | log.c:102-113 | write_head makes the on-disk header read as the in-memory one, in one disk write |
| `LogCode.Log.CopyHome` | log.c:70-82 | one turn of install_trans copies one log slot home |
| `LogCode.Log.InstallTrans` | log.c:70-82 | install_trans brings every logged block home, through the specified disk images |
| `LogCode.Log.CommitWrites` | log.c:193-202 | the writes of a commit, in order, pass through exactly the disk images for which crash atomicity is proved |
| `LogCode.Log.Commit` | log.c:193-202 | commit leaves the transaction in the home blocks and the log empty; a crash at any point in between recovers to all or nothing |
| `LogCode.Log.ReadHead` | log.c:86-96 | read_head loads exactly the header that is on disk |
| `LogCode.Log.RecoverFromLog` | log.c:116-122 | recover_from_log leaves the recovered disk, through images that all recover to it |
| `LogCode.Log.BeginOp` | log.c:126-141 | begin_op admits an operation exactly when no commit runs and the log has room for MAXOPBLOCKS more for every operation |
| `LogCode.Log.EndOp` | log.c:146-174 | end_op starts a commit exactly when it ends the last outstanding operation |
| `LogCode.Log.LogWrite` | log.c:214-233 | log_write adds a block once, absorbs a second write, and panics exactly on a full log or outside an operation |
| `LogRuns.Keeps` | log.c:126-233 | every step of any process, of the committer, of recovery and of a crash keeps the log, cache and allowance invariant, as long as the log area has a slot for each entry, which a log of more than LOGSIZE blocks always has |
| `LogRuns.KeepsAppend` | log.c:223-232 | logging a new block under the lock keeps the invariant whatever the test before the lock saw: the reservation keeps the transaction below LOGSIZE |
| `LogRuns.KeepsTest` | log.c:218-221 | the test without the lock, passed or not, keeps the invariant, of which it is part that a process past the test may log its block when it gets the lock |
| `LogRuns.KeepsAbsorb` | log.c:224-230 | logging a block again keeps the invariant and uses no new slot |
| `LogRuns.KeepsCommitWrite` | log.c:193-202 | each single disk write of a commit keeps the invariant; at the header write the group becomes committed |
| `LogRuns.KeepsCrash` | log.c:54-66 | losing memory at any moment keeps the invariant of the disk |
| `LogRuns.RunInv` | log.c:126-233 | the invariant holds at every point of every interleaved run with any number of crashes: on a log of more than LOGSIZE blocks always, on a smaller one until an entry is added that has no slot |
| `LogRuns.WholeRunDurability` | log.c:126-202 | at every point of every run a crash and recovery give exactly the effect of the committed groups; groups hold only finished operations and are a prefix of all later ones (same proviso; DurabilityIff says when it matters) |
| `LogRuns.NothingUncommittedAtHome` | log.c:193-233 | until the header write the home blocks are those of the committed groups, and a commit runs only with no operation outstanding (same proviso) |
| `LogRuns.ReadsAreLatest` | bio.c:97-106 | a reader of an unlocked block sees the committed groups plus every update logged since, at every point of every run once recovery is over, also while a commit is copying blocks |
| `LogRuns.CommitReads` | log.c:193-202 | between any two writes of a commit a block reads as its last logged contents, whether it is installed yet or not |
| `LogRuns.CommitNeverStuck` | log.c:193-202 | a commit or a recovery in progress always has a next write |
| `LogRuns.EndedIsCommitted` | log.c:146-173 | in every run, whenever the machine runs and no operation does, every operation that has ended is in a committed group with all its updates, and the log is empty |
| `LogRuns.AppendNeverStuck` | log.c:223-232 | a process past the test can always add its block |
| `LogLimits.ReservationFits` | log.c:126-141 | in every reachable running state used slots plus unused allowances are at most LOGSIZE and no block is logged twice |
| `LogLimits.NoEarlyPanic` | log.c:218-219 | with log.size > LOGSIZE an operation with allowance left never meets the too-big panic |
| `LogLimits.PanicsIffFull` | log.c:218-219 | with log.size > LOGSIZE a call of log_write panics if and only if LOGSIZE blocks are logged, and then its block is one of them and every running operation has used its whole allowance |
| `LogLimits.PanicReached` | log.c:218-219 | with log.size <= LOGSIZE a concrete run of three operations, of ten new blocks each, meets the panic with allowance left |
| `LogLimits.ReservationSoundIff` | mkfs.c:25-25 | the panic with allowance left can be reached if and only if log.size <= LOGSIZE; the image builder makes it equal to LOGSIZE |
| `LogLimits.AbsorbedPanic` | log.c:218-219 | such a panic, on a block that needs no new entry, is reached on a log of any size above LOGSIZE |
| `LogLimits.OverrunIff` | log.c:214-233 | more entries than the log area has slots can be reached if and only if 2 <= log.size <= LOGSIZE |
| `LogLimits.OverwritesHome` | log.c:178-190 | a concrete run in which write_log then overwrites the home block after the log, with nothing committed |
| `LogLimits.DurabilityIff` | log.c:126-233 | what is committed survives every crash of every run if and only if log.size > LOGSIZE or log.size == 1 |
| `FsSpec.WordRoundTrip` | fs.c:390-393 | a block number stored in an indirect block is read back, and no other entry changes |
| `FsSpec.MarkBit` | fs.c:66-68 | setting a block's bit in the free map marks that block and no other |
| `FsSpec.FreeBit` | fs.c:88-92 | clearing a block's bit frees that block and no other |
| `FsSpec.FreeTaken` | fs.c:66-68 | marking a free block leaves one free block less |
| `FsSpec.OwnedExactlyOnce` | fs.c:373-400 | under the invariant no data block is in two places: two address slots with the same block are the same slot, and a used data block has one |
| `FsSpec.InodeSlotKeeps` | fs.c:378-388 | giving a free block to an empty slot of an inode keeps exclusive ownership |
| `FsSpec.EntryKeeps` | fs.c:391-394 | giving a free block to an empty entry of the indirect block keeps exclusive ownership |
| `FsSpec.WithBlockKeeps` | fs.c:501-501 | storing bytes in a data block of one file keeps the invariant and changes no other file's bytes |
| `FsSpec.SplicesIsConcat` | fs.c:482-511 | the pointwise meaning of a write is: old contents before, the source, old contents after |
| `FsSpec.WrittenElsewhere` | fs.c:482-511 | a write to one file leaves every byte of every other file |
| `FsSpec.WriteKeepsDense` | fs.c:482-511 | a write to a file without holes leaves it without holes |
| `FsSpec.LacksNext` | fs.c:373-400 | what a range of blocks of a file lacks (one block for each unmapped one, and one for the indirect block if it is absent and the range reaches it) is the sum of what mapping them one after the other allocates, the indirect block falling to the first that needs it |
| `FsSpec.SpentTogether` | file.c:135-152 | two writes in a row, that may share a block, take from the free blocks what the whole range lacked |
| `FsSpec.WithoutSlotKeeps` | fs.c:414-419 | emptying a direct slot and freeing its block keeps exclusive ownership |
| `FsSpec.WithoutIndirectKeeps` | fs.c:421-431 | dropping an indirect block and all its entries keeps exclusive ownership |
| `FsCode.Fs.Bzero` | fs.c:43-51 | bzero leaves the block zero and logged, others untouched |
| `FsImage.RecordedIff` | fs.h:39-48 | that every block outside the transaction is as it was is the same as: every changed inode j has block inodestart + j / 8 in it, every changed part of the free map its block, every changed data block itself |
| `FsImage.RecordedThen` | log.c:214-235 | what two stretches of an operation have recorded, one after the other, is recorded |
| `FsImage.CommitIsWhole` | log.c:176-202 | then the disk with the recorded blocks written home and all others as before is the whole new state |
| `FsImage.InodeRecorded` | fs.c:221-236 | changing an inode and logging its block records the change, whoever shares the block |
| `FsImage.AllocRecorded` | fs.c:57-79 | so does balloc with the free map's block and the zeroed block |
| `FsCode.Fs.constructor` | mkfs.c:237-251 | an empty file system meets the invariant: exactly the blocks before the data area are in use |
| `FsCode.Fs.Balloc` | fs.c:57-78 | balloc takes the first free block, zeroes it and marks it; it fails only when every block is in use |
| `FsCode.Fs.Bfree` | fs.c:82-95 | bfree frees exactly that block, with its block of the free map in the transaction, and refuses (panics on) one that is free already |
| `FsCode.Fs.Iupdate` | fs.c:221-236 | iupdate makes the disk copy of an inode equal to the one in memory, with its inode block in the transaction |
| `FsCode.Fs.Bmap` | fs.c:373-400 | bmap returns the block of a file position, allocating it and the indirect block when missing, and keeps all other addresses and exclusive ownership; it fails if and only if fewer blocks are free than that takes, and takes exactly those |
| `FsCode.Fs.BmapIndirect` | fs.c:385-397 | the indirect half of bmap: allocates exactly what is missing of the indirect block and one entry, each owned once, or fails for want of just that |
| `FsCode.Fs.WriteChunk` | fs.c:498-504 | one turn of writei's loop writes its part of the source and logs at most the blocks it is charged for; it fails if and only if fewer blocks are free than this block lacks |
| `FsCode.Fs.WriteLoop` | fs.c:498-504 | the loop writes the whole source at the offset, block by block, taking exactly the blocks that were lacking; it fails only when fewer are free |
| `FsCode.Fs.Writei` | fs.c:482-511 | writei refuses exactly what the source refuses; otherwise it fails if and only if fewer blocks are free than the range lacks (so an overwrite of mapped blocks succeeds on a full disk), or the new contents are the old with the source spliced in, the size grows to the end of the write, other files stay, no hole appears, exactly the lacking blocks are taken, and the logged blocks are bounded by the blocks touched; every block it changes is in the transaction |
| `FsCode.Fs.Readi` | fs.c:453-476 | readi refuses exactly what the source refuses; otherwise it returns the file's bytes from the offset, cut at the size, or fails if and only if fewer blocks are free than the holes in that range lack; it changes nothing of a file without holes, and the bytes of no file in any case; every block it changes is in the transaction |
| `FsCode.Fs.ReadStep` | fs.c:468-474 | one turn of readi's loop: the bytes that follow, or fewer free blocks than the range lacks |
| `FsCode.Fs.FreeDirect` | fs.c:414-419 | the direct blocks of the file, and no others, become free |
| `FsCode.Fs.FreeIndirect` | fs.c:421-431 | the indirect block and its entries, and no others, become free |
| `FsCode.Fs.Itrunc` | fs.c:408-435 | itrunc frees exactly the blocks the file owned, leaves it empty, on disk too, and leaves every other file; every block it changes is in the transaction |
| `FsCode.Fs.WriteOp` | file.c:133-145 | one write of filewrite's chunk size logs at most MAXOPBLOCKS blocks; it is refused without effect, or splices the chunk in exactly when the blocks it lacks are free; every block it changes is in the transaction |
| `FsCode.Fs.FilewriteStep` | file.c:135-152 | one turn of the chunk loop: a further piece of the source is in the file, within one operation's allowance, exactly when it is not refused and the blocks it lacks are free |
| `FsCode.Fs.Filewrite` | file.c:118-156 | a chunked write has the effect of one write; how many bytes it writes is exactly known (all, none past the end, or the chunks below the maximum size), a short write is reported as -1, and it fails if and only if fewer blocks are free than those bytes lack; every block it changes is in the transaction |
| `BufferCache.RelinkMovesFront` | bio.c:130-138 | the six pointer assignments of brelse move that buffer to the front of the ring and keep the order of the others |
| `BufferCache.PinnedBlockStays` | bio.c:62-93 | over every run of other processes, a buffer somebody has a reference to keeps its block |
| `BufferCache.LockedBufferStays` | bio.c:97-141 | over every run of other processes, a locked buffer keeps its contents and the newest contents of its block stay |
| `BufferCache.UncachedIsOnDisk` | bio.c:97-106 | when a buffer is not valid, the disk has the newest contents of its block |
| `BufferCache.BCache.constructor` | bio.c:39-56 | binit links all buffers into one ring, in both directions, all unused |
| `BufferCache.BCache.Lookup` | bio.c:69-76 | the forward scan finds the buffer of a block if and only if there is one |
| `BufferCache.BCache.Victim` | bio.c:81-91 | the backward scan finds the least recently released buffer that is unused and not dirty, if there is one |
| `BufferCache.BCache.BgetRef` | bio.c:62-93 | bget's critical section: never two buffers for one block, never recycles a used or dirty buffer, recycles the least recently used one, and fails exactly when it must |
| `BufferCache.BCache.Acquire` | bio.c:73-73 | on getting the sleep lock a valid buffer has the newest contents of its block |
| `BufferCache.BCache.Fill` | bio.c:97-106 | bread returns the newest contents of the block |
| `BufferCache.BCache.Modify` | bio.c:97-106 | the lock holder may change the contents; nobody else sees a change |
| `BufferCache.BCache.LogWrite` | log.c:231-231 | log_write makes the contents the block's newest and pins the buffer |
| `BufferCache.BCache.Bwrite` | bio.c:110-116 | bwrite makes the contents the newest, on disk too |
| `BufferCache.BCache.ReleaseLock` | bio.c:121-126 | letting go of the lock keeps memory and disk in agreement |
| `BufferCache.BCache.Relink` | bio.c:132-137 | the pointer assignments, one by one, have the specified effect |
| `BufferCache.BCache.DropRef` | bio.c:128-140 | the last release puts the buffer first on the ring, as most recently used |
| `Links.NamedIsAllocated` | fs.c:525-548 | under the invariant no entry of a live directory names a free inode |
| `Links.UnlinkedIsUnnamed` | fs.c:332-352 | an inode with no links is named by no entry of a live directory, so iput frees nothing that can be looked up |
| `Links.LinkAddKeepsIff` | sysfile.c:147-151 | adding the entry of a link keeps count = names if and only if the directory has links itself |
| `Links.CreateFileKeepsIff` | sysfile.c:260-280 | creating a file keeps count = names if and only if the directory has links |
| `Links.CreateDirKeepsIff` | sysfile.c:260-280 | creating a directory, with its dot entries and the parent's extra link, keeps count = names if and only if the parent has links |
| `Links.EmptyDirNamedOnce` | sysfile.c:185-239 | a directory that isdirempty accepts has exactly one link, in the directory its ".." names |
| `Links.ParentStaysLive` | sysfile.c:221-224 | removing a subdirectory leaves the parent with a link of its own |
| `Links.UnlinkFileKeeps` | sysfile.c:185-239 | removing a name of a file keeps count = names |
| `Links.UnlinkDirKeeps` | sysfile.c:185-239 | removing an empty directory keeps count = names: its own, its parent's and everyone else's |
| `Links.FreedKeeps` | fs.c:339-345 | freeing an inode without links keeps count = names |
| `Links.NoInodeLost` | fs.c:327-352 | in every state that is kept, an inode in use has a name, a link under way or a holder |
| `Links.IputFinds` | fs.c:332-352 | whoever drops the last reference to an inode without links that has been read in frees it, so none is lost |
| `Links.IputValid` | fs.c:332-352 | iput keeps counts, names, references and that no inode is lost |
| `Links.UnlinkedKeeps` | sysfile.c:185-239 | sys_unlink keeps all of that, and frees the inode exactly with its last name and no holder |
| `Links.FirstStateValid` | mkfs.c:117-128 | a file system of any size with only its root meets the invariant |
| `Links.LinkDoneKeepsIff` | sysfile.c:119-165 | a whole successful sys_link leaves correct counts if and only if its directory had links |
| `Links.FailedLinkRestores` | sysfile.c:158-164 | a failed sys_link leaves every inode as it was |
| `Links.CreateKeepsIff` | sysfile.c:242-283 | create leaves correct counts, distinct names and no free inode in use if and only if the directory had links |
| `Links.RemovedDirectoryExample` | sysfile.c:242-283 | a file created in a removed directory has a link that no live directory accounts for |
| `Links.RemovedDirectoryLinkExample` | sysfile.c:119-162 | a file created in the root and then linked into a removed directory has a count one too high |
| `Links.Files.Dirlookup` | fs.c:525-548 | dirlookup finds the first entry with the name, if there is one |
| `Links.Files.constructor` | mkfs.c:117-128 | that file system, as an object |
| `Links.Files.Iget` | fs.c:242-270 | iget takes a reference and keeps the invariant |
| `Links.Files.Ilock` | fs.c:286-314 | ilock reads the inode in and keeps the invariant |
| `Links.Files.Dirlink` | fs.c:552-578 | dirlink refuses exactly a name that is present, else adds the entry in the first empty slot or at the end |
| `Links.Files.IsDirEmpty` | sysfile.c:169-181 | isdirempty holds exactly when no slot after the dot entries is in use |
| `Links.Files.Iput` | fs.c:332-352 | iput drops one reference; the inode becomes free exactly when it had no links and that was the last reference, and no other inode changes |
| `Links.Files.LinkBegin` | sysfile.c:128-142 | sys_link refuses directories, and else raises the count before it lets go of the file |
| `Links.Files.LinkEnd` | sysfile.c:144-164 | the rest of sys_link, with anything in between: it fails exactly without a parent or on a present name, and is correct if and only if the directory had links |
| `Links.Files.Unlink` | sysfile.c:185-239 | sys_unlink keeps all counts; it succeeds if and only if the name is not a dot name and some entry of the directory has it and names a file or an empty directory; then the entry is empty, and the inode is free exactly if it had one link and nobody held it, else it has one link less; failing, it changes nothing |
| `Links.Files.Remove` | sysfile.c:218-229 | the removal, statement by statement, has the specified effect |
| `Links.Files.Ialloc` | fs.c:195-214 | ialloc takes the first free inode, if there is one |
| `Links.FoundKeeps` | sysfile.c:250-258 | looking up a name that exists keeps all counts and frees nothing in use |
| `Links.Files.Reopen` | sysfile.c:250-258 | an existing name is returned exactly when a file is asked for and it is one; the references are given back otherwise |
| `Links.Files.Name` | sysfile.c:260-278 | the fresh inode, its dot entries, the parent's link and the new entry, statement by statement, have the specified effect |
| `Links.Files.Create` | sysfile.c:242-283 | create makes a fresh inode of the kind asked for, with one link and one reference, under the new name; an existing name is opened, with a reference more, exactly when a file is asked for and it is one; it keeps the invariant exactly when the directory had links |
| `VmSpec.PopKeeps` | kalloc.c:83-95 | taking the head of the free list leaves a list of the other free pages |
| `VmSpec.PushKeeps` | kalloc.c:60-77 | freeing an owned page puts it on the list once |
| `VmSpec.SameOwnersSameFree` | kalloc.c:60-95 | the free pages are exactly those that nobody owns |
| `VmSpec.DistinctFrames` | vm.c:61-80 | two user pages, of one address space or of two, are never in the same frame |
| `VmSpec.NewTableGood` | vm.c:45-52 | a new page table changes no mapping and no other address space |
| `VmSpec.MappedGood` | vm.c:68-73 | mapping a page keeps every frame owned once |
| `VmSpec.UnmappedGood` | vm.c:269-276 | unmapping a page and freeing its frame keeps every frame owned once and changes one entry |
| `VmSpec.GrantsIsLeaf` | vm.c:48-52 | in every address space the user's and the write right that the hardware grants to a page, which both levels must have, are those in its own entry |
| `VmCode.CopyRights` | vm.c:316-345 | so the child may do with each copied page what the parent may |
| `VmCode.AllocRights` | vm.c:222-249 | and the user may read and write every page that allocuvm has added |
| `VmCode.KernelEntryIs` | vm.c:105-136 | every page of every line of kmap is mapped to its frame, present, with the rights of the line |
| `VmCode.RemovedSkip` | vm.c:265-268 | skipping a directory entry without a table removes what page-by-page removal would |
| `VmCode.Machine.constructor` | kalloc.c:20-37 | before kinit the free list is empty and every frame is the kernel's own; the invariant holds |
| `VmCode.Machine.Freerange` | kalloc.c:47-53 | exactly the frames of the range become free |
| `VmCode.Machine.Kalloc` | kalloc.c:83-95 | kalloc returns the head of the list, or 0 exactly when there is none |
| `VmCode.Machine.Kfree` | kalloc.c:60-77 | kfree puts the page at the head of the list |
| `VmCode.Machine.Walk` | vm.c:36-55 | walkpgdir finds the table or makes an empty one, with a present, writable, user entry in the directory, without changing any mapping; it fails exactly when it may not or cannot |
| `VmCode.Machine.MapOne` | vm.c:61-80 | mapping one page sets one entry and takes a frame exactly for a missing table; without memory for that nothing changes |
| `VmCode.Machine.MapPage` | vm.c:66-78 | one turn of the loop: one more page and the table it may need, or too few frames |
| `VmCode.Machine.MapRange` | vm.c:61-80 | a range of kernel pages is mapped entry by entry; it fails only when fewer frames were free than the directory and its tables need |
| `VmCode.Machine.Setupkvm` | vm.c:119-136 | setupkvm gives a directory with exactly the kernel's mappings, for one frame and one more for every table; it fails if and only if fewer were free, and then leaves owners, contents and free pages as they were |
| `VmCode.Machine.Dealloc` | vm.c:256-279 | deallocuvm, skipping directory entries, equals page-by-page removal: exactly the pages of the range go, and their frames are free |
| `VmCode.Machine.FreeTables` | vm.c:291-296 | every page table of the space is freed, once |
| `VmCode.Machine.Freevm` | vm.c:284-298 | freevm returns every page, every table and the directory exactly once and touches nothing else |
| `VmCode.Machine.CopyOne` | vm.c:325-339 | one page of copyuvm: same flags, same bytes, a frame of its own; it fails only when fewer frames were free than the copy up to this page needs |
| `VmCode.Machine.Copyuvm` | vm.c:316-345 | copyuvm gives the child the parent's flags and bytes below sz in frames nobody owned, the parent unchanged; it fails if and only if fewer frames were free than the directory, the tables and the pages, and then owners, contents and the free-page set are exactly as before; the hardware grants the child on each page what it grants the parent |
| `VmCode.CopyNeedIs` | vm.c:316-345 | what a copy needs: the directory, a table for every 4 MB the kernel half touches, a table for every 1024 user pages, and the pages; no table serves both halves |
| `VmCode.UserDirs` | vm.c:36-55 | n pages from address 0 lie in the first n / 1024 tables, rounded up |
| `VmCode.Machine.AllocOne` | vm.c:233-247 | one page of allocuvm: zero, writable by the user, in a frame nobody owned; it fails only when fewer frames were free than the whole growth needs |
| `VmCode.Machine.Allocuvm` | vm.c:222-249 | allocuvm adds zero pages up to the new size; it returns 0 exactly for a size beyond KERNBASE or when fewer frames were free than the new pages and the tables they lack, and then has no new page and only page tables left over; the user can read and write the new pages |
| `VmCode.Machine.GiveUp` | vm.c:235-246 | the error path removes the pages added so far and gives back the page in hand |
| `Umalloc.BlocksDisjoint` | umalloc.c:25-90 | no two blocks, free or live, overlap |
| `Umalloc.FreeBlocksApart` | umalloc.c:33-42 | no two free blocks are adjacent |
| `Umalloc.StopIsBelow` | umalloc.c:29-32 | the loop of free stops exactly at the free block just below the one being freed |
| `Umalloc.InsertedOrdered` | umalloc.c:33-42 | linking a block in keeps the list circular and sorted |
| `Umalloc.JoinedOrdered` | umalloc.c:33-42 | joining two adjacent free blocks keeps list, units and order |
| `Umalloc.FreedKeeps` | umalloc.c:25-44 | free keeps list, units and the other live blocks, and leaves no adjacent free blocks |
| `Umalloc.TakenSound` | umalloc.c:76-77 | handing out a whole block keeps the heap in order |
| `Umalloc.CarvedSound` | umalloc.c:78-82 | handing out the end of a block keeps the heap in order, and the new block was nobody's |
| `Umalloc.SbrkGivesIff` | umalloc.c:54-56 | sbrk gives the units asked for if and only if their byte count is below 2^31 |
| `Umalloc.RefusedIff` | umalloc.c:46-62 | morecore is refused exactly a request below 2^31 bytes that would bring the process to 2^31 or finds no pages; else it gets the units, at least 4096 |
| `Umalloc.BigEmptiesIff` | proc.c:212-231 | a request of 2^31 bytes or more is never refused, and empties the process if and only if its value as an int cancels the size of the process |
| `Umalloc.DiesIff` | umalloc.c:47-61 | the process dies in morecore if and only if the request is of 2^31 bytes or more and finds the end of the process at a page boundary or takes it below one |
| `Umalloc.BigNeverFits` | umalloc.c:75-75 | no free block of an honest heap has that many units |
| `Umalloc.ExtendedHonestIff` | umalloc.c:47-61 | after morecore the heap's units are those that sbrk gave if and only if the byte count is below 2^31 |
| `Umalloc.RoomForIff` | umalloc.c:69-69 | a block of the computed units has room for nbytes if and only if nbytes <= 2^32 - 8 |
| `Umalloc.OverflowExample` | umalloc.c:69-69 | a request of 2^32 - 1 bytes is served with a block of no bytes |
| `Umalloc.MadeUpMemory` | umalloc.c:47-90 | malloc(40000) and then malloc(2^31) on a fresh heap: the second is served with memory that sbrk never gave |
| `Umalloc.LostMemory` | proc.c:212-231 | malloc(40000) and then malloc(4294919088): sbrk frees every page of the process, the live block with them |
| `Umalloc.FaultsAtHeader` | umalloc.c:57-58 | malloc(2^31) by a process that ends at a page boundary: there is no page for the header |
| `Umalloc.Allocator.Free` | umalloc.c:25-44 | free ends; the block joins its free neighbours, other live blocks and all units stay |
| `Umalloc.Allocator.Splice` | umalloc.c:33-43 | the pointer work of free has the specified effect |
| `Umalloc.Allocator.Morecore` | umalloc.c:47-61 | kills the process if and only if DiesIff says so; otherwise fails, with nothing changed, if and only if sbrk refuses, or some free block has the units afterwards, and they are really there if and only if the byte count is below 2^31 |
| `Umalloc.Allocator.Take` | umalloc.c:75-85 | the block handed out has exactly the units asked for and was nobody's |
| `Umalloc.Allocator.Search` | umalloc.c:74-89 | the search ends, after one morecore at most; it kills the process, or fails, if and only if no free block has the units and morecore does |
| `Umalloc.Allocator.Malloc` | umalloc.c:64-90 | malloc kills the process if and only if no free block has the computed units and DiesIff holds of them; otherwise it fails, with all live blocks as they were, if and only if no free block has them and sbrk refuses, and else returns a new live block of those units, all other live blocks as they were. Free plus live units stay those of sbrk if and only if the byte count is below 2^31 |
| `ShellSpec.GetToken` | sh.c:266-308 | a token begins at or after the cursor, is not empty before the end of the line, and the cursor moves past it |
| `ShellSpec.ParseLine` | sh.c:345-359 | parsing moves the cursor forward only and never past the end |
| `ShellSpec.ReadLine` | sh.c:345-359 | from anywhere in a line, parseline reads a printed command back and stops at its end |
| `ShellSpec.RoundTrip` | sh.c:328-342 | for every tree of words with at most MAXARGS - 1 arguments per command, parsing its fully parenthesised printing gives that tree |
| `ShellGrammar.SpellsIff` | sh.c:266-308 | gettoken splits every line in the one way it can be split: whole words, symbols, two > as one, white space in between |
| `ShellGrammar.LineIsParsed` | sh.c:328-446 | every line of the grammar, with redirections before, between and after the words, groups, pipes, & and ;, and any white space, is parsed as what it means: words in order, the first redirection innermost, pipes and lists nested to the right, one Back for each & |
| `ShellGrammar.ParsedIsLine` | sh.c:328-446 | whatever is parsed is a line of the grammar and gets its meaning |
| `ShellGrammar.ParsesIff` | sh.c:328-342 | parsecmd succeeds if and only if the text is a line of the grammar |
| `ShellGrammar.SameLine` | sh.c:345-446 | the parser does on text what it does on lexemes |
| `ShellGrammar.RedirectionAfterWord` | sh.c:431-443 | a line with its redirection last keeps it |
| `ShellCode.LineSpans` | sh.c:345-446 | every word in a parsed command is a whole word of the line |
| `ShellCode.ReadsBack` | sh.c:450-493 | after nulterminate each word reads back as a C string: exactly its characters |
| `ShellCode.WordReadsBack` | sh.c:450-493 | an argument of a printed command reads back as the word that was printed |
| `ShellCode.TreeReadsBack` | sh.c:450-493 | all words of all parts of a terminated command read back: what runcmd sees is the tree that was printed |
| `ShellCode.TerminatedTree` | sh.c:450-493 | whatever command it is, what runcmd sees in the terminated buffer are the words of the line |
| `ShellCode.ParsePrinted` | sh.c:328-342 | printing any valid tree and running parsecmd on the line gives, as C strings in the terminated buffer, the same tree |
| `ShellCode.Gettoken` | sh.c:266-308 | the loops of gettoken compute the token |
| `ShellCode.PeekAt` | sh.c:311-320 | peek skips white space and tests the next character |
| `ShellCode.Parseredirs` | sh.c:375-397 | the loop collects all redirections, or panics on one without a file |
| `ShellCode.Parseargs` | sh.c:431-442 | the argument loop collects words and the redirections after each of them, up to MAXARGS - 1 words (what it collects is given by ShellGrammar.LineIsParsed) |
| `ShellCode.Parseexec` | sh.c:416-446 | parseexec parses as the grammar says |
| `ShellCode.Parseblock` | sh.c:400-413 | parseblock parses as the grammar says |
| `ShellCode.Parsepipe` | sh.c:362-372 | parsepipe parses as the grammar says |
| `ShellCode.Parseline` | sh.c:345-359 | parseline parses as the grammar says, and ends |
| `ShellCode.Ampersands` | sh.c:350-353 | the loop over & wraps the command once for each |
| `ShellCode.Nulterminate` | sh.c:450-493 | every word of the command ends in a NUL, and no NUL is inside any word of the line |
| `ShellCode.Parsecmd` | sh.c:328-342 | parsecmd panics on exactly what is no line of the grammar; else it returns what the line means, and runcmd finds every word of it in the buffer |
| `Procs.NoForgottenZombie` | proc.c:331-371 | at every release of the table lock no process sleeps in wait while it has a zombie child |
| `Procs.ExitedKeeps` | proc.c:286-326 | exit keeps that, across passing its children to init |
| `Procs.ExitedIs` | proc.c:286-326 | exit leaves the process a zombie and its children with init; awake are who waits as its parent, and as init if it got a zombie; nothing else changes |
| `Procs.ExitIsReported` | proc.c:286-371 | in every run after an exit the process is a zombie until the first wait that reaps its slot, and that wait returns its pid to its parent |
| `Procs.ParentUntilExit` | proc.c:286-371 | that parent is the one it had, unless that has exited |
| `Procs.ReapedKeeps` | proc.c:345-359 | reaping keeps that every parent is alive and every zombie has a parent |
| `Procs.ZombieUntilReaped` | proc.c:286-371 | over every run a zombie stays, with its pid, until its parent's wait takes it, once, and is told its pid |
| `Procs.ChargedSum` | proc.c:437-458 | a tick adds one to the summed times of each living process and nothing to others |
| `Procs.PTable.constructor` | proc.c:174-209 | userinit: one process, in a table that meets the invariant |
| `Procs.PTable.Wakeup1` | proc.c:723-730 | exactly the sleepers on the channel become runnable |
| `Procs.PTable.Wakeup` | proc.c:734-739 | wakeup makes exactly the sleepers on the channel runnable and keeps the invariant |
| `Procs.PTable.Exit` | proc.c:286-326 | exit makes the process a zombie, wakes the parent, passes children to init, wakes it for zombies, changes nothing else and keeps the invariant |
| `Procs.PTable.Wait` | proc.c:331-434 | wait and wait2 reap the first zombie child exactly when there is one, report its pid and times and clear its slot, return -1 only to a childless or killed caller, and sleep only with children and no zombie among them |
| `Procs.PTable.Sleep` | proc.c:683-717 | sleeping on anything but a process keeps the invariant |
| `Procs.PTable.Yield` | proc.c:636-648 | yield takes a tick from the time slice and makes the process runnable exactly when it was the last; a running process always has between 1 and INTERV left |
| `Procs.PTable.Dispatch` | proc.c:521-528 | the chosen process runs with a whole time slice |
| `Procs.SliceLasts` | proc.c:636-648 | a dispatched process that only yields runs through exactly INTERV ticks |
| `Procs.PTable.Kill` | proc.c:745-762 | kill marks the first process with the pid, wakes it if it sleeps and changes nothing else; it fails exactly when there is none |
| `Procs.PTable.Allocproc` | proc.c:112-170 | allocproc takes the first unused slot; it fails exactly when there is none or kalloc gives no stack, and in the second case the slot is unused again but for its pid |
| `Procs.PTable.AllocSlot` | proc.c:112-142 | the part under the lock: the first unused slot becomes an embryo |
| `Procs.PTable.ForkFails` | proc.c:248-253 | a fork without memory gives its slot back |
| `Procs.PTable.ForkParent` | proc.c:255-255 | entering the parent keeps the invariant |
| `Procs.PTable.ForkRuns` | proc.c:273-277 | letting the child run keeps the invariant |
| `Procs.PTable.Countprocs` | proc.c:437-458 | each living process is charged the tick in exactly one counter, by its state |
| `Pipe.DeliveredIsPrefix` | pipe.c:79-121 | the bytes read are a prefix of the bytes accepted |
| `Pipe.Counters` | pipe.c:85-85 | the tests on wrapping 32-bit counters are tests on the true counts |
| `Pipe.PutKeeps` | pipe.c:93-93 | storing a byte keeps the order and the bound of 512 |
| `Pipe.GetKeeps` | pipe.c:114-116 | taking a byte takes the oldest one |
| `Pipe.PipeBuf.Store` | pipe.c:84-94 | bytes go in until all are in or the pipe is full |
| `Pipe.PipeBuf.Write` | pipe.c:79-98 | pipewrite between lock and release: writes all, fails or sleeps exactly as the state demands; no sleeper is forgotten, except exactly by a killed writer with more bytes than fit while a reader sleeps |
| `Pipe.PipeBuf.Fetch` | pipe.c:113-117 | as many bytes as asked for or present come out, in order |
| `Pipe.PipeBuf.Read` | pipe.c:101-121 | piperead between lock and release: returns bytes, end of file, -1 or sleeps exactly as the state demands, and forgets no sleeper |
| `Pipe.PipeBuf.CloseWrite` | pipe.c:60-75 | closing the write end wakes every reader |
| `Pipe.PipeBuf.CloseRead` | pipe.c:60-75 | closing the read end wakes every writer |
| `Pipe.PipeBuf.Kill` | proc.c:745-762 | a killed process does not stay asleep on the pipe |
| `Pipe.ForgottenReader` | pipe.c:85-92 | a run that leaves a reader asleep on a full pipe |
| `Lottery.BinsFill` | rand.c:103-109 | the accepted outputs fill max + 1 bins of equal size |
| `Lottery.RandomAtMost` | rand.c:103-120 | the first accepted output decides the number: the bin it falls into, between 0 and max |
| `Lottery.TotalTickets` | proc.c:497-501 | the first loop sums the tickets of the runnable processes |
| `Lottery.Pick` | proc.c:512-538 | a process is chosen if and only if one is runnable and the winner is within the tickets there are; it is the first whose tickets reach the winner |
| `Lottery.PicksIff` | proc.c:512-519 | process k wins on exactly the numbers above the tickets before it and up to its own; 0 goes to the first |
| `Lottery.ChoosesIff` | proc.c:497-538 | the accepted outputs that choose process k are one interval |
| `Lottery.OutputsInterval` | proc.c:497-538 | the outputs that choose process k are exactly those from its first bin to its last |
| `Lottery.Share` | proc.c:497-538 | exactly tickets * bin size accepted outputs choose process k, one bin more for the first runnable one |
| `Mersenne.TemperBijection` | rand.c:91-94 | tempering is a bijection on 32-bit words, with its inverse given |
| `Mersenne.TwistUndone` | rand.c:77-78 | a step of the recurrence can be undone: the new word gives back the upper bit and the lower bits it was made of |
| `Mersenne.TemperValues` | rand.c:91-94 | four values of the tempering |
| `Mersenne.Generator.Sgenrand` | rand.c:52-61 | seeding fills the state with the first N terms |
| `Mersenne.Generator.NextBlock` | rand.c:76-85 | the in-place three-part update turns N terms of the recurrence into the next N |
| `Mersenne.Generator.Replace` | rand.c:77-78 | one word is replaced by the term N places on |
| `Mersenne.Generator.Genrand` | rand.c:64-99 | for every seed and every number of calls, the next number is the tempered next term of the recurrence (equation 2.1 of Matsumoto and Nishimura, 1998) without its top bit |
| `Regex.StarAccepts` | grep.c:99-106 | a star is some number of fitting characters and then the rest |
| `Regex.Matchhere` | grep.c:85-96 | matchhere holds exactly when some prefix of the text is in the pattern's language, all of it when anchored |
| `Regex.Matchstar` | grep.c:99-106 | matchstar holds exactly when after some number of fitting characters the rest matches |
| `Regex.Match` | grep.c:73-82 | match holds exactly when some allowed start begins a word of the pattern's language |
| `Regex.LiteralMatchesIff` | grep.c:85-96 | a pattern without special characters matches exactly where it occurs |
| `Regex.DottedMatchesIff` | grep.c:85-96 | a pattern of characters and dots matches exactly where its characters stand, with any character for a dot |
| `Regex.WrittenIsRead` | grep.c:85-96 | a written list of single and starred characters, with or without the anchor, is read as that list |

## Left out

- Device drivers, boot code, interrupts, spin locks, context switches and the assembly files: hardware behaviour; a critical section is one step instead.
- `initlog`'s superblock read and the dinode and superblock layouts in bytes: dinodes and layout facts are values; only the log header, the free map and indirect blocks are modelled down to their words and bits.
- Panics in the block layer (no free block, freeing a free block) are a false result after which nothing is promised.
- The free-map byte arithmetic of balloc and bfree is on the set of one bits of each byte, not on machine words.
- Device files (T_DEV) in readi and writei: they call the driver and touch no block.
- LogRuns: the number of buffers is not bounded (BufferCache models its bound and bget's panic), and a disk whose header names more blocks than the log area has slots is not booted from.
- Path resolution (namex, skipelem) and the inode cache's slots: a call gets the inode, or the directory and last name, that a path leads to, and an inode that nobody holds counts as not read in.
- Links: nlink is an integer without the 16-bit limit; a file system of FSSIZE blocks has fewer than 32767 entries. A directory at its maximum size, where dirlink panics, is not modelled.
- exec, loaduvm, copyout, clearpteu and the segment and CR3 setup of vm.c: they add no new ownership of pages.
- VmCode.Machine.Setupkvm: the kernel's mapping table is a parameter, since one of its addresses is chosen by the linker.
- Page contents are bytes, or page-table entries, or a free-list link, by use; the same page is not read in two of these ways.
- Umalloc.Allocator.Malloc: whether the kernel finds memory for sbrk is a parameter; user writes into live blocks are not modelled. Of a process that dies in it no more is promised than that its memory is gone: the kernel kills it at the next access.
- FsCode.Fs.Filewrite: other writers between two chunks, while the inode is unlocked, are not modelled.
- The shell's command execution (runcmd) and reading of lines (getcmd).
- The priority scheduler, set_priority, set_max_time, tracing and the other system calls that only copy a field.
- Procs: fork's copying of memory, files and names, and process numbers wrapping past 2^31.
- Pipe.PipeBuf.Write: negative counts, and copying from user memory byte by byte, are not modelled.
- Lottery.RandomAtMost: the generator's outputs are a finite sequence; that an accepted one comes is not claimed.
- Lottery.Share: the table is the same when tickets are summed and when the winner is looked up, which the code does not ensure; `Pick` covers a table that changed in between.
- The file table's reference counts (filealloc, filedup, fileclose) and file descriptors.
- grep's buffering of input lines.
- Fairness and progress: that a waiting process is scheduled again.

# Verification of the xv6 kernel and user library

This project models the parts of the teaching operating system xv6 (the RISC-V version) whose
correctness is hardest to see from the code, and proves what they are for. `dafny verify dfyconfig.toml`
checks everything.

Code that updates structures in place is modelled by classes whose methods do the same updates and are
proved against functions on values; protocols between processes, CPUs and devices are modelled as state
machines over their atomic steps, and proved over all runs. The main results, by part:

- **The log** (`Blocks`, `LogSpec`, `GroupCommit`, `Log`, `Bio`, `LogRun`): group commit over the buffer
  cache is atomic with respect to crashes, also crashes inside commit and inside recovery. The methods of
  `Log` and `Bio` produce exactly the disk writes that `LogSpec` is about; `GroupCommit` proves atomicity
  over whole runs of concurrent operations, commits, crashes and recoveries; `LogRun` shows that the code
  of initlog, begin_op, log_write and end_op makes the steps of that machine.
- **Sleep and wakeup** (`SleepLock`, `ExitWait`): no wakeup is lost, sleep locks exclude each other, and
  fork, exit, wait and kill, interleaved in any way by any number of processes, leave no parent dead, no
  zombie unnoticed and no process freed while a CPU executes it.
- **The file system** (`DiskBytes`, `FsSpec`, `Fs`, `DirSpec`, `Dir`, `FsOps`, `Links`): the block bitmap
  down to its bits, the indirect and data blocks down to their bytes, and the inodes, which are records
  here, represent one byte sequence per file; reading and writing are reading and overlaying that sequence
  and disturb no other file; directories are maps; path names are resolved component by component; create,
  link and unlink change the map, the inodes and the log as they should and nothing else; link counts are
  the number of names.
- **Files and pipes** (`FileTable`, `Pipe`): reference counts are the number of references, a pipe's page
  lives exactly as long as one of its ends, and a pipe delivers what it accepted, in order.
- **Virtual memory** (`PageTable`, `FreeWalk`, `Vm`, `AddressSpace`, `Fork`): three-level page tables over
  physical pages with a ledger of who owns each page; every operation changes exactly the translations
  it should, and every failure gives back exactly the pages it took.
- **exec** (`ByteString`, `PageBytes`, `ArgStack`, `ExecSpec`, `Exec`, `SysExec`): the memory of the new
  program, byte by byte, with its argument strings and pointers; or, on failure, a machine in which not
  one page or translation differs.
- **The disk driver** (`VirtioSpec`, `Virtio`): descriptors, rings and interrupts, against a device that
  may complete requests in any order and at any time.
- **User programs** (`HeapSpec`, `Umalloc`, `ShellSpec`, `Shell`, `Grep`): the storage allocator, the
  parser of the shell and the matcher of grep.

## Model

| member | source | states |
|---|---|---|
| `GroupCommit.CrashAtomic` | kernel/log.c:12-27 | in every run of begin_op, log_write, end_op, the disk writes of commit and recovery, and crashes at any point, every point of the run recovers to the home blocks as they were at the last commit point: a whole group of operations or nothing of it |
| `GroupCommit.CrashAtomicFromBoot` | kernel/log.c:55-65 | the same for a run that begins with a machine switched on over any disk whose header is well formed: the starting contents are what recovery finds there |
| `GroupCommit.CrashKeeps` | kernel/log.c:12-27 | whatever holds of the home blocks whenever no operation is in progress holds of what every point of the run recovers to: an invariant that whole operations keep survives crashes |
| `GroupCommit.StepRefines` | kernel/log.c:12-27 | each step of that machine keeps its invariant and is a step, or no step, of a specification that has only the durable contents and the current contents |
| `GroupCommit.DurableStep` | kernel/log.c:194-203 | the only step that changes what a crash would recover is the write of the header in commit; it makes the current contents durable, and no operation is in progress then |
| `GroupCommit.CommittedWhenDone` | kernel/log.c:147-175 | when a commit is over, the durable contents are the current contents |
| `GroupCommit.NoOperationDuringCommit` | kernel/log.c:147-175 | no operation is outstanding while a commit is in progress, so the panic of end_op is unreachable |
| `GroupCommit.NeverTooBig` | kernel/log.c:215-235 | if no operation appends more than MAXOPBLOCKS - 1 blocks, the size panic of log_write is unreachable in every run, with a log of LOGSIZE blocks that includes its header |
| `GroupCommit.TenIsTooMany` | kernel/log.c:127-142 | on every disk with room for it there is a run in which three operations each keep to MAXOPBLOCKS and the size test of log_write panics, while one of them still has a block of its reservation left |
| `GroupCommit.ExactBudget` | kernel/log.c:127-142 | for every k, and on every disk with room for the log and its blocks: no run whose operations keep to k blocks each meets the size panic if and only if k is at most MAXOPBLOCKS - 1 |
| `LogSpec.RecoveredContents` | kernel/log.c:69-83 | recovery gives each listed home block the contents of its log slot, leaves every other home block alone, and empties the log |
| `LogSpec.RecoveryCrash` | kernel/log.c:117-123 | after any number of the writes of recovery the disk still recovers to the same home blocks |
| `LogSpec.RecoveryIdempotent` | kernel/log.c:117-123 | a second recovery changes no home block |
| `LogSpec.CommitCrash` | kernel/log.c:194-203 | after any number k of the writes of commit the disk recovers to the old home blocks if the header is not yet written, and otherwise to the new ones: nothing in between |
| `LogSpec.CommitHome` | kernel/log.c:194-203 | block by block: a listed block recovers to its cached contents, every other one to its contents on disk |
| `Log.Log.ReadHead` | kernel/log.c:87-97 | the in-memory list is the list of the header block |
| `Log.Log.WriteHead` | kernel/log.c:103-114 | exactly one disk write, of a header that holds the in-memory list |
| `Log.Log.WriteLog` | kernel/log.c:179-191 | the disk writes are, in order, the cached contents of each listed block into its slot, or a prefix of them if no buffer is left |
| `Log.Log.InstallTrans` | kernel/log.c:69-83 | the disk writes are, in order, each log slot to its home block, or a prefix of them; pins are dropped exactly when not recovering |
| `Log.Log.Commit` | kernel/log.c:194-203 | the disk writes are those of LogSpec.CommitWrites or a prefix, so whichever prefix has reached the disk recovers to the old home blocks or to the cached ones; afterwards the list is empty and cache and disk agree, whatever buffers other processes hold for reading |
| `Log.Log.RecoverFromLog` | kernel/log.c:117-123 | the disk writes are those of LogSpec.RecoverWrites or a prefix, and every disk on the way recovers to the same home blocks |
| `Log.Log.LogWrite` | kernel/log.c:215-235 | the block of the buffer is on the list, once, and pinned; it fails exactly for the two panics |
| `Log.Log.EndOp` | kernel/log.c:147-175 | the last operation of a group commits what the group has logged; any other one only leaves |
| `LogRun.BootRun` | kernel/log.c:117-123 | from a machine switched on over any well-formed disk there is a run of the crash machine, write by write of recovery, to the booted state |
| `LogRun.InitLog` | kernel/log.c:55-65 | the code of initlog, over a fresh cache, arrives at that booted state: memory, cache and disk are those of the crash machine |
| `LogRun.BeginOp` | kernel/log.c:127-142 | one turn of begin_op admits its caller exactly when the crash machine can begin an operation, and is that step |
| `LogRun.LogWrite` | kernel/log.c:215-235 | changing a held buffer and calling log_write is the step of the crash machine; it panics exactly when that step is not enabled |
| `LogRun.EndRun` | kernel/log.c:147-175 | the end of an operation, with every disk write of the commit if it was the last, is a run of the crash machine |
| `LogRun.EndOp` | kernel/log.c:147-175 | the code of end_op, with its whole commit, arrives at the last state of that run |
| `Bio.Bcache.constructor` | kernel/bio.c:37-53 | binit: every buffer is free and on the list |
| `Bio.Bcache.Bget` | kernel/bio.c:59-89 | the one buffer that caches the block, locked and with one more reference; or a buffer without references, least recently used, for a block that was not cached; or none if every buffer is referenced |
| `Bio.Bcache.Bread` | kernel/bio.c:93-103 | a locked buffer with the latest contents of the block: those of its buffer if it was cached, those on disk otherwise |
| `Bio.Bcache.Bwrite` | kernel/bio.c:107-112 | exactly the one block on disk changes, to the data of the buffer |
| `Bio.Bcache.Brelse` | kernel/bio.c:117-137 | the lock and one reference are gone; the buffer moves to the front of the list exactly if it was the last reference; the contents anybody sees stay |
| `Bio.Bcache.Bpin` | kernel/bio.c:140-144 | one more reference, which keeps the block in the cache |
| `Bio.Bcache.Bunpin` | kernel/bio.c:147-151 | one reference less; the buffer stays coherent with the disk |
| `SleepLock.StepInv` | kernel/proc.c:536-580 | every interleaved step of acquiresleep, releasesleep, sleep, wakeup, kill and the scheduler, with processes that also sleep elsewhere, keeps the invariant |
| `SleepLock.MutualExclusion` | kernel/sleeplock.c:22-41 | at every point of every interleaving at most one process holds the sleep lock, and it is the one that the lock names |
| `SleepLock.NoLostWakeup` | kernel/proc.c:536-580 | whenever the sleep lock and its spin lock are free, no process is SLEEPING on it, although sleep drops the spin lock before it sets the state |
| `ExitWait.StepInv` | kernel/proc.c:280-435 | every step of any number of processes in fork, exit, reparent, wait, sleep (in wait or on any other channel), wakeup, kill and the scheduler keeps the invariant |
| `ExitWait.ParentsAlive` | kernel/proc.c:331-386 | at every point of every run a parent is a live process, neither free nor under construction nor a zombie |
| `ExitWait.ZombiesHaveParents` | kernel/proc.c:347-386 | at every point of every run a zombie has a parent that can reap it |
| `ExitWait.NoSleeperHasZombie` | kernel/proc.c:391-435 | whenever wait_lock is free, no process asleep in wait has a zombie child: no exit is missed |
| `ExitWait.ReapedByParent` | kernel/proc.c:391-435 | a zombie stays one until its current parent reaps it in wait, and then its entry is free and no CPU executes it |
| `ExitWait.FreedOffCpu` | kernel/proc.c:156-172 | freeproc is never called on a process that a CPU still executes |
| `ExitWait.NotFreed` | kernel/proc.c:156-172 | a step by itself makes no entry free but that of a zombie |
| `FsOps.Mkfs` | mkfs/mkfs.c:110-128 | the image that mkfs begins with satisfies the invariant of all operations below: its one directory is the root, its own parent, and every other inode is free; it fails only if there is no room |
| `Fs.Fs.Balloc` | kernel/fs.c:66-88 | the lowest free block, marked in the bitmap and zeroed, which no file has; or 0 exactly if every block is marked |
| `Fs.Fs.Bfree` | kernel/fs.c:92-105 | the block is unmarked and no slot names it; the panic is unreachable |
| `Fs.Fs.Bmap` | kernel/fs.c:383-421 | the block of the slot, allocated and zeroed if there was none, through the indirect block from slot 12 on; every other slot of every file keeps its block and contents; 0 only when the disk is full |
| `Fs.Fs.Readi` | kernel/fs.c:472-496 | exactly the bytes of the file from the offset on, at most up to its end; an offset beyond the end, or one that overflows, gives none; -1 exactly if the destination ends too early; nothing on disk changes |
| `Fs.Fs.Writei` | kernel/fs.c:506-539 | the bytes of the file are the old ones overlaid by the written part of the source, and extended; every other file keeps its bytes and its inode; it is refused exactly beyond the end, on overflow and beyond MAXFILE; it falls short only if the source or the disk ends; what it has logged is listed |
| `Fs.Fs.Itrunc` | kernel/fs.c:426-453 | the file is empty, exactly its blocks are unmarked in the bitmap, and every other file is as before; only bitmap blocks and its inode block are logged |
| `Fs.Fs.FreeInode` | kernel/fs.c:337-362 | iput of the last reference to a file without links: the file is empty and its inode free on disk |
| `Fs.Fs.FileWrite` | kernel/file.c:135-181 | the file is the old one overlaid by the bytes written, the offset moves with them, and the result is the length if all of them were written and -1 otherwise; no other file changes |
| `Fs.Fs.LoggedWrite` | kernel/file.c:162-167 | one of these operations logs at most four data blocks, the indirect block, the inode block and the bitmap |
| `Fs.LogBudget` | kernel/file.c:149-155 | on a disk with at most three bitmap blocks that is at most MAXOPBLOCKS - 1 blocks, which is what GroupCommit.NeverTooBig asks for |
| `FsOps.Ialloc` | kernel/fs.c:199-219 | the lowest free inode, now of the given type and without links, bytes and blocks, with its block logged; or 0 exactly if every inode is in use; all other inodes and files stay |
| `FsOps.Link` | kernel/sysfile.c:124-167 | the map of the directory gains the name and the file a link, or neither; it fails only if the name is there or there is no room; no other inode or file changes; at most 4 blocks and the bitmap are logged |
| `FsOps.Isdirempty` | kernel/sysfile.c:174-186 | true exactly if no entry after the first two is in use |
| `FsOps.Unlink` | kernel/sysfile.c:189-243 | it refuses, changing nothing, exactly a name that is not there, "." and "..", and a directory that is not empty; otherwise the map loses the name, the inode a link, the directory one too if the inode is a directory, and the inode is freed with its last link and reference; at most 4 blocks and the bitmap are logged |
| `FsOps.Create` | kernel/sysfile.c:246-302 | an existing file is given for a file and refused otherwise; a new inode has one link and a name, and a directory its two entries; it fails only without a free inode or when it has come to a consistent image without room, and then the directory is as before and the inode is free again; at most 8 blocks and the bitmap are logged |
| `FsOps.PutAway` | kernel/fs.c:337-362 | iput of an inode: freed exactly if it was the last reference and there are no links; its inode block and the bitmap are all that is logged |
| `FsOps.Truncate` | kernel/sysfile.c:363-365 | the file is empty, keeps its links, and every other file stays; its inode block and the bitmap are all that is logged |
| `FsOps.WithinBudget` | kernel/param.h:9-11 | on a disk with one bitmap block each of these operations keeps to the MAXOPBLOCKS - 1 blocks of GroupCommit.ExactBudget |
| `FsSpec.TakeConsistent` | kernel/fs.c:66-88 | taking an unmarked block keeps the invariant: the marked blocks are exactly those before the data area, those that some slot names, and the one taken |
| `FsSpec.ReturnConsistent` | kernel/fs.c:92-105 | giving back the block of a slot takes that slot out of the pointers and keeps the invariant |
| `FsSpec.AttachAddr` | kernel/fs.c:388-406 | storing a taken block into an address of the inode gives the slot its owner and keeps the invariant |
| `FsSpec.AttachIndirect` | kernel/fs.c:407-414 | storing a taken block into the indirect block does, too |
| `DiskBytes.AddBit` | kernel/fs.c:75-77 | setting a clear bit of a byte leaves its other bits alone |
| `DiskBytes.SubBit` | kernel/fs.c:98-102 | clearing a set bit of a byte leaves its other bits alone |
| `DiskBytes.PutWordGet` | kernel/fs.c:407-414 | a word stored into a block is read back, and the other words are as before |
| `Dir.Namecmp` | kernel/fs.c:544-547 | comparing DIRSIZ characters says equal exactly if the padded name is the stored one |
| `Dir.Dirlookup` | kernel/fs.c:552-575 | the inode number that the directory, seen as a map from names, gives for the name, or 0; and the offset of its entry |
| `Dir.Dirlink` | kernel/fs.c:580-606 | the map gains the name; it fails only if the name is there, every block is in use or the directory has its maximal size, and then nothing has changed; all directories stay in order; at most one data block is logged besides the bitmap, the indirect and the inode block |
| `Dir.Dirunlink` | kernel/sysfile.c:222-224 | the map loses exactly the name; the panic is unreachable; all directories stay in order |
| `Dir.Skipelem` | kernel/fs.c:623-645 | the first component of the path, cut to DIRSIZ bytes, and the rest of the path |
| `Dir.Namex` | kernel/fs.c:652-684 | the inode that all components lead to, in order, from the root or the current directory; with nameiparent the directory before the last component, and that component; 0 exactly if some step is not possible |
| `DirSpec.AddName` | kernel/fs.c:580-606 | an entry written into a free place adds its name to the map of a directory without duplicates |
| `DirSpec.RemoveName` | kernel/sysfile.c:222-224 | a cleared entry takes its name, and no other, out of the map |
| `DirSpec.SplitJoin` | kernel/fs.c:608-645 | splitting a path that was joined from components gives the components back |
| `Links.StepInv` | kernel/sysfile.c:124-302 | every step of create, link, unlink, iput and their failures that overflows no count and frees no directory with a name in it keeps link counts equal to the names, the child directories and the calls in progress |
| `Links.StepExact` | kernel/sysfile.c:124-302 | from right counts a step leads to right counts if and only if it overflows no 16-bit count and frees no directory that has a name in it |
| `Links.RunExact` | kernel/sysfile.c:124-302 | over every run from a mkfs image, at every point: the counts have been right all along if and only if no step so far has overflowed a count or freed a directory that had a name in it |
| `Links.CarefulRun` | kernel/sysfile.c:246-302 | a run in which no step adds a name to a removed directory or overflows a count, which a caller can check, is such a run: its counts are right and removed directories stay empty |
| `Links.AtRest` | kernel/sysfile.c:124-302 | when no call is in progress, the count of a file is the number of its names; a directory with a name has exactly one, and its count is one more than its child directories |
| `Links.FreedUnnamed` | kernel/fs.c:337-362 | iput frees an inode only when no directory names it, and the link count panic of unlink is unreachable |
| `Links.Orphan` | kernel/sysfile.c:246-302 | on any image with two free inodes there is a run, a file created in a directory that was removed while open, whose counts are right at every point but the last: freeing the directory leaves the file with a count of one and no name |
| `Pipe.Counters` | kernel/pipe.c:77-103 | full and empty are told apart by the 32-bit counters alone, also after they have wrapped |
| `Pipe.Pipe.Write` | kernel/pipe.c:77-103 | bytes of the source enter the ring in order until it is full, the readers are gone, or the source ends |
| `Pipe.Pipe.Read` | kernel/pipe.c:106-130 | bytes leave in the order they entered, at most n; it sleeps exactly if there are none and a writer is left |
| `Pipe.Run` | kernel/pipe.c:77-130 | over every run the bytes delivered are a prefix of the bytes accepted, and what lies between fits into the ring |
| `FileTable.PipeLife` | kernel/pipe.c:59-74 | in every state of the invariant a page is in use exactly as long as one end of its pipe is open or about to be closed |
| `FileTable.Run` | kernel/file.c:30-83 | over every interleaving of the critical sections of open, dup, close, pipe, fork and exit of any number of processes each count is the number of references, and a page is in use exactly as long as a file stands for one of its ends or the closing of one is pending |
| `FileTable.Table.constructor` | kernel/file.c:22-26 | no file is in use, and the invariant holds |
| `FileTable.Table.FileAlloc` | kernel/file.c:30-44 | a file that nobody refers to, now with one reference; or none if every file is in use |
| `FileTable.Table.FileDup` | kernel/file.c:48-56 | one more reference is counted; the panic is unreachable |
| `FileTable.Table.FileClose` | kernel/file.c:60-83 | the reference is gone, the count stays the number of references, and a pipe end without references is about to be closed |
| `FileTable.Table.PipeClose` | kernel/pipe.c:59-74 | the end is closed, and the page is freed exactly if the other end is closed already |
| `FileTable.Table.PipeAlloc` | kernel/pipe.c:23-56 | two files that are the two ends of a pipe in a page that was not in use; or nothing has changed |
| `FileTable.Table.FdAlloc` | kernel/sysfile.c:40-52 | the lowest free descriptor takes over the reference; or -1 if all are in use |
| `FileTable.Table.Close` | kernel/file.c:60-83 | the reference is gone, and with the last one the file and its pipe end; the page is freed exactly if the other end is closed already |
| `FileTable.Table.SysClose` | kernel/sysfile.c:98-108 | an open descriptor, and only that, is free afterwards, and its pipe end is closed if it was the last reference; exactly the page of that pipe is freed, and exactly if the other end is closed; -1 exactly if it was not open |
| `FileTable.Table.SysDup` | kernel/sysfile.c:55-66 | the lowest free descriptor refers to the same file; it fails, changing nothing, exactly if the descriptor is not open or none is free |
| `FileTable.Table.SysPipe` | kernel/sysfile.c:478-505 | the two lowest free descriptors for the two ends of a new pipe; or no file, page or descriptor is left over |
| `FileTable.Table.Fork` | kernel/proc.c:305-308 | the child has a reference for each descriptor of the parent, and every count is right |
| `FileTable.Table.Exit` | kernel/proc.c:354-361 | no descriptor of the process is left, and every count is right |
| `PageTable.SetLeaf` | kernel/vm.c:143-165 | a leaf entry changes the translation of its one page in its one address space |
| `PageTable.LinkTable` | kernel/vm.c:95-99 | a zeroed page hung into an invalid entry changes no translation |
| `PageTable.LookupSame` | kernel/vm.c:86-103 | a translation depends on nothing but the entries on its path |
| `Vm.Machine.constructor` | kernel/kalloc.c:27-31 | every whole page between the end of the kernel and the end of memory is on the free list |
| `Vm.Machine.Freerange` | kernel/kalloc.c:34-40 | the whole pages of the range become free |
| `Vm.Machine.Kfree` | kernel/kalloc.c:47-63 | the page, which nobody refers to, is at the front of the free list; every other page keeps its contents and every address space its translations |
| `Vm.Machine.Kalloc` | kernel/kalloc.c:69-82 | the front page of the free list, which then nobody else has; or 0 exactly if none is free |
| `Vm.Machine.Walk` | kernel/vm.c:86-103 | the page that holds the entry of the address, or 0; with alloc only missing table pages are made, and every translation of every address space stays |
| `Vm.Machine.Mappages` | kernel/vm.c:143-165 | exactly the pages that the range touches are mapped to consecutive pages; on failure a prefix of them is |
| `Vm.Machine.Uvmunmap` | kernel/vm.c:171-192 | exactly the n mappings are gone, with do_free their pages are free, and no panic is reachable when all of them existed |
| `Vm.Machine.Uvmalloc` | kernel/vm.c:226-249 | zeroed pages up to the new size with the permissions asked for, at most three free pages taken for each; or 0, and then every translation is as before, every data page is free again, and fewer than three pages for each new one were free |
| `Vm.Machine.Uvmdealloc` | kernel/vm.c:256-267 | the translations of the pages above the new size are gone and their pages free |
| `Vm.Machine.Uvmcopy` | kernel/vm.c:306-333 | the child has pages with the same bytes and flags, none of them shared; on failure it has none, no page is lost, and fewer than three pages for each one copied were free |
| `Vm.Machine.Freewalk` | kernel/vm.c:272-287 | exactly the table pages of the tree become free, and other address spaces keep their translations; the leaf panic is unreachable when nothing is mapped |
| `FreeWalk.CutChild` | kernel/vm.c:272-287 | clearing an entry cuts off exactly the table pages below it |
| `AddressSpace.Uvmcreate` | kernel/vm.c:197-205 | an empty page table, or 0 |
| `AddressSpace.Uvmfree` | kernel/vm.c:292-297 | exactly the pages and table pages of the address space become free |
| `AddressSpace.ProcPagetable` | kernel/proc.c:177-206 | a page table with only trampoline and trapframe; or 0, and then not one page is lost, and fewer than five were free |
| `AddressSpace.ProcFreepagetable` | kernel/proc.c:211-216 | exactly the pages of the address space become free; trapframe, trampoline and other address spaces stay |
| `Fork.ForkMemory` | kernel/proc.c:280-301 | a child with its own trapframe, page table and a copy of every page of the parent; or failure, and then every page is where it was, and fewer than six and three for each page of the parent were free |
| `Fork.FreeProc` | kernel/proc.c:156-172 | trapframe and page table of a process without memory are given back |
| `ByteString.IntegerRoundTrip` | kernel/exec.c:104-110 | reading back the bytes of an integer gives the integer |
| `ByteString.CStringPut` | kernel/exec.c:90-102 | a string stored with its NUL is read back as that string |
| `PageBytes.FlatPut` | kernel/exec.c:148-166 | bytes stored into one page of several are those bytes of the whole, and no others change |
| `ArgStack.ArrayRead` | kernel/exec.c:90-110 | entry k of the argument array is the address of string k, and the one after the last is null |
| `ArgStack.ArgumentRead` | kernel/exec.c:90-110 | the C string at address k of the stack is argument k, for any arguments that fit |
| `ExecSpec.ProgramFinds` | kernel/exec.c:90-110 | every program that exec starts finds at sp, aligned as it should be, the addresses of its arguments and a null pointer, and at each address the argument as a C string |
| `ExecSpec.ContentGrown` | kernel/vm.c:226-249 | the memory of a grown address space is the old one followed by zeros |
| `ExecSpec.ContentStored` | kernel/exec.c:148-166 | storing into one page overwrites those bytes of the memory of its address space |
| `Exec.Loadseg` | kernel/exec.c:148-166 | the memory is overwritten by the bytes of the segment; it fails exactly if the file is too short; the panic is unreachable |
| `Exec.LoadAll` | kernel/exec.c:53-70 | the segments in order, each with its checks: the size and the bytes are those of ExecSpec.LoadAllSpec; or it can be undone, and with enough memory that happens exactly if some header is unreadable, is refused or has a file too short for it |
| `Exec.Uvmclear` | kernel/vm.c:338-346 | the page loses its user bit, and no translation leads elsewhere |
| `Exec.GrowStack` | kernel/exec.c:78-88 | two zeroed pages above the segments, the lower one out of reach of the program |
| `Exec.PushArgs` | kernel/exec.c:90-102 | the strings are where ArgStack.Strings says; it fails exactly if they do not fit or are too many |
| `Exec.ExecImage` | kernel/exec.c:23-141 | on success the memory is ExecSpec.FinalImage of the segments and arguments, with its guard page, and exactly the old address space is free; on failure not one page or translation differs, and then a header was bad, a file too short, the arguments did not fit, or there were fewer free pages than five and three for each page of the image; bad headers and arguments never succeed |
| `SysExec.RunSysExec` | kernel/sysfile.c:435-475 | on success the new image has exactly the strings before the first null pointer as arguments, and only the pages of the old image are given back; on failure, wherever it happens, not one page or translation differs, and then a pointer or string was bad, there was no null pointer, the arguments took all pages, or exec failed for one of its reasons |
| `Virtio.Disk.constructor` | kernel/virtio_disk.c:119-146 | an empty queue satisfies the invariant |
| `Virtio.Disk.Alloc3Desc` | kernel/virtio_disk.c:202-213 | three different free descriptors, or none; and none exactly if fewer than three are free |
| `Virtio.Disk.Submit` | kernel/virtio_disk.c:216-281 | a chain of three fresh descriptors for the request, its head in the avail ring; or nothing but the contents of free descriptors has changed |
| `Virtio.Disk.DeviceTake` | kernel/virtio_disk.c:238-277 | the device finds, by following the descriptors, exactly the request that was asked for |
| `Virtio.Disk.Intr` | kernel/virtio_disk.c:295-327 | while the device takes and completes requests between the turns of the loop, the loop ends; every request that was in the used ring has its buffer released, no request twice; the status panic is unreachable |
| `Virtio.Disk.Finish` | kernel/virtio_disk.c:283-291 | the request was completed by the device, and its three descriptors are free again |
| `Virtio.Disk.FreeChain` | kernel/virtio_disk.c:186-197 | exactly the three descriptors of the chain are free |
| `Virtio.Run` | kernel/virtio_disk.c:216-327 | over every run of processes, device and the single turns of the interrupt handler: no request is completed or answered twice, every one answered was reported by the handler and before that completed by the device, none is lost, at most two are under way, and no panic is reachable |
| `VirtioSpec.NotYetDone` | kernel/virtio_disk.c:238-277 | a request that the device holds has not been completed before |
| `VirtioSpec.AllSeen` | kernel/virtio_disk.c:305-320 | when the loop of the handler ends, all that was in the used ring at its beginning has been reported, whatever the device added meanwhile |
| `VirtioSpec.AtMostTwo` | kernel/virtio_disk.c:202-213 | chains of three out of eight descriptors are disjoint, so there are at most two |
| `VirtioSpec.RoomLeft` | kernel/virtio_disk.c:271-277 | the rings never overflow |
| `Umalloc.StopsAt` | user/umalloc.c:29-32 | the search of free stops at exactly one place of the ring: after the last free block below the one to be freed |
| `Umalloc.Neighbours` | user/umalloc.c:33-42 | the two address tests of free find out exactly whether the neighbours in memory are free |
| `Umalloc.Heap.constructor` | user/umalloc.c:21-22 | an empty heap satisfies the invariant |
| `Umalloc.Heap.Free` | user/umalloc.c:25-44 | the block is free and merged with its free neighbours; the live blocks are the others, and blocks still tile the heap without two free ones in a row |
| `Umalloc.Heap.Morecore` | user/umalloc.c:47-61 | at least the units asked for are added at the end of the heap as free memory; or nothing has changed |
| `Umalloc.Heap.Malloc` | user/umalloc.c:64-90 | a new live block of exactly the units needed, which no other block overlaps, and the other live blocks are as before; 0 only if no free block is large enough and sbrk refuses; the search ends |
| `ShellSpec.RoundTrip` | user/sh.c:329-343 | parsing the printed form of any command tree gives that tree |
| `ShellSpec.LineOk` | user/sh.c:267-447 | every argument and file name that the parser records is a whole word of the line |
| `ShellSpec.WordsTerminated` | user/sh.c:451-494 | after the ends of the words have been overwritten by NUL, the C string at each recorded word is that word |
| `Shell.ParseExec` | user/sh.c:417-447 | the command that the grammar function gives at that place, or its error; the cursor is after it |
| `Shell.ParseCmd` | user/sh.c:329-343 | the command tree of the whole line, or an error if anything is left over |
| `Shell.NulTerminate` | user/sh.c:451-494 | exactly the characters after the recorded words become NUL |
| `Shell.ParseBuffer` | user/sh.c:329-343 | after parsing and termination in the one buffer, the strings that the tree refers to are the words of the tree |
| `Grep.Match` | user/grep.c:72-81 | true exactly if some part of the text, anchored as the pattern says, is in the language of the pattern |
| `Grep.MatchHere` | user/grep.c:84-95 | true exactly if the text begins with a string of the language of the pattern, up to its end if the pattern ends with $ |
| `Grep.MatchStar` | user/grep.c:98-105 | true exactly if after some number of accepted characters a string of the rest of the pattern follows |

## Findings

- **A file can be left without a name.** create does not look at the link count of the directory it
  writes to, so a directory that was removed while a process has it open can still gain an entry. All counts
  are right until that directory is freed; then the file stays allocated with a link count of one and no
  name. `Links.Orphan` gives the run, for any image with two free inodes. `Links.RunExact` shows that the
  counts are right at every point of a run if and only if no step overflows a 16-bit count or frees a
  directory that has a name in it. `Links.CarefulRun` gives a condition on the calls themselves that suffices:
  no name is added to a removed directory and no count overflows.
- **MAXOPBLOCKS is one too many.** begin_op reserves MAXOPBLOCKS blocks for each operation, but the log
  of LOGSIZE blocks includes its header, and log_write tests for room before it looks for an earlier entry
  of the same block. `GroupCommit.TenIsTooMany` gives, for every disk with room for it, a run in which three
  operations keep to MAXOPBLOCKS and the size test panics; `GroupCommit.ExactBudget` shows that operations
  of up to k blocks never panic if and only if k is at most MAXOPBLOCKS - 1. Covered by that bound are each
  chunk of filewrite, on a disk with at most three bitmap blocks (`Fs.LogBudget`), and on a disk with one
  bitmap block create, link, unlink, the iput of close, chdir and exit, and truncation (`FsOps.WithinBudget`).

## Left out

- Assembly, traps, interrupts other than the disk's, the console, the UART and the timer: hardware access.
- Spin locks are atomic steps here; weak memory ordering and the disabling of interrupts are not modelled.
- The probing of the device in virtio_disk_init, and the device's transfer of data itself.
- mkfs after the root directory: the files that it copies into the image.
- Crash atomicity in terms of files: `GroupCommit.CrashKeeps` is about any invariant of the home blocks that whole
  operations keep, and `Fs` and `FsOps` keep theirs and say which blocks they log; the bytes of a disk that encode
  an image of `Fs` are not spelled out, so the two are not composed into one statement.
- The layout of an inode within its disk block: inodes on disk are records.
- inode locks and references (iget, ilock, iunlock): the operations of `Fs`, `Dir` and `FsOps` are those of a
  process that holds the locks; whether an iput drops the last reference is a parameter.
- Device numbers of inodes (major, minor).
- exec with exactly MAXARG arguments would store the terminating null pointer one past the end of its array of
  pointers (kernel/exec.c:91-102). sys_exec never passes that many (kernel/sysfile.c:447-449): `Exec.ExecImage`
  excludes the number, and `SysExec.RunSysExec` needs no such condition.
- User memory: copyin, copyinstr and copyout to arbitrary addresses are parameters that say how many bytes
  can be copied; only exec's copyout to the new stack is modelled with its page.
- The ELF header check and reading of program headers: the headers and the bytes of the file are parameters.
- sbrk in the kernel (growproc) is a composition of uvmalloc and uvmdealloc without a result of its own.
- user programs other than the shell's parser, grep's matcher and the allocator; printf and the string library.
- Bio.Bcache.Bread: waiting for a buffer that another process has locked is a precondition, because it is
  the sleep lock of `SleepLock`; the panic for lack of buffers is a result.
- Log.Log.Commit: buffers that others hold at that moment must hold blocks outside the list with the contents
  that are on disk, which is what the callers of bread for reading do.
- Vm.Machine.Uvmunmap: clears the entry before it frees the page, where the source does it in the other order;
  freewalk likewise.
- Vm.Machine.Uvmalloc: the virtual pages above the old size must be unused as far as memory could reach, which
  holds because a process cannot have more pages than the machine.
- Exec.ExecImage: the number of free pages is bounded by the memory of the machine (kernel/memlayout.h:47-48).
- Pipe.Pipe.Write: a failed copyin ends the call; what it would have copied partly is not stored.
- Umalloc.Heap.Malloc: does not model 32-bit overflow of the requested size; sbrk memory is contiguous above the
  allocator's own header.
- FsOps.Create, FsOps.Link and FsOps.Unlink: begin where the path has been resolved to its directory; an iput
  on the way there of a directory that another process has removed would log the block of its inode as well.
- FsOps.Unlink: the link counts that its panic is about are a precondition; `Links.FreedUnnamed` shows that it
  holds in every careful run.
- Links.StepInv: directories hold names and no bytes; their representation is that of `Dir` and `FsOps`, and
  ialloc is a choice of a free inode.
- LogRun.LogWrite: the process holds the buffer of a home block, as the callers of log_write do.
- Shell.ParseExec: argument lists are sequences; the limit MAXARGS is checked as in the source.

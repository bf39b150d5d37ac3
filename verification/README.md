# A verified model of a teaching kernel

The repository holds a small x86 teaching kernel, its user library, a shell with some programs, and the
program that builds its disk image. This project models its hardest parts in Dafny, in the form the C code
has, and proves what they promise.

Where the C code changes things step by step the model is a class whose methods do the same, with loops
and fields: the block device (`DiskCache`), the file system (`Inodes`, `Directories`, `Namei`), the table
of open files (`OpenFiles`), the image builder (`Mkfs`), the linked lists (`Lists`), the process table
(`ProcTables`), the whole kernel (`SystemCalls`), the heap (`Malloc`), the shell's parser (`Shell`), the
serial port (`Serial`) and its readers in the process table (`Console`), virtual memory (`Vme`) and
number conversion (`Numbers`), the device nodes (`Devices`) and the machine as a whole (`Machine`). Each
is proved against functions and invariants over values, which the other modules hold: `Layout`,
`Ownership`, `Files`, `Namespace`, `Procs`, `ProcInvariant`, `HeapBlocks`, `ShellGrammar`, `Paging`,
`Regex`.

What the layers build on each other:

- bytes on disk, seen through the cache, are a superblock, a bitmap, inodes and data (`Layout`);
- block ownership over these is exact, and files are byte strings (`Ownership`, `Files`, `Inodes`);
- files of type directory form a tree in which names are unique (`Namespace`, `Namei`);
- open files, working directories and descriptors hold all the references there are (`OpenFiles`, `FileRefs`);
- processes and semaphores follow a transition system whose invariant holds in every run (`Procs`,
  `ProcRuns`), and the tables and lists of the kernel refine it (`ProcTables`);
- every system call keeps all of it at once (`SystemCalls`), and an image made by mkfs is a state to start
  from (`Mkfs`, `Boot`, `Devices`);
- so whatever sequence of calls, ticks and keys follows, all of it holds, and the processes make a run of the
  transition system (`Machine`, `PowerOn`), about which the other modules speak (`ProcRuns`, `ProcFair`, `Console`,
  `ProducerRuns`).

What the caller of the most used operations sees is said once more, case by case and without the functions
that specify them: where a path leads (`PathLaws`), what open, read, write, lseek and unlink do to it
(`OpenLaws`), what descriptors and semaphore numbers are good for (`CallLaws`), what keys do to a line
(`LineLaws`), how numbers look and are read (`NumberLaws`), and what the characters of a pattern or a
command line mean (`RegexLaws`, `ShellLaws`).

Kernel code runs with interrupts off, so what happens between two changes of process is one step. A process
that blocks inside the kernel goes on later in a step of its own (`Continue`). An assertion of the C code
that fails is a result `Abort`; the contracts say when that can happen.

## Model

| member | source | states |
|---|---|---|
| `DiskCache.BlockDevice.GetCache` | oslab2024spring/kernel/src/disk.c:61-69 | the entry a block maps to holds that block as the disk has it, every other valid entry still equals its block, and the disk is untouched |
| `DiskCache.BlockDevice.Bread` | oslab2024spring/kernel/src/disk.c:71-76 | reading through the cache returns the bytes of the flat disk, whatever the cache held |
| `DiskCache.BlockDevice.Bwrite` | oslab2024spring/kernel/src/disk.c:78-84 | a write replaces just those bytes of just that block on the flat disk, and the cache agrees with the disk afterwards |
| `DiskCache.BlockDevice.Bzero` | oslab2024spring/kernel/src/disk.c:86-90 | one block of the flat disk becomes zeros, no other changes |
| `Inodes.Fs.Balloc` | oslab2024spring/kernel/src/fs.c:184-203 | returns the first block whose bit is clear, marks and clears it, and stops the machine exactly when no bit is clear |
| `Inodes.Fs.Bfree` | oslab2024spring/kernel/src/fs.c:205-214 | clears the bit of that block and nothing else |
| `Inodes.Fs.Dialloc` | oslab2024spring/kernel/src/fs.c:161-176 | takes the first inode of type none and sets nothing but its type; stops exactly when there is none |
| `Inodes.Fs.Ialloc` | oslab2024spring/kernel/src/fs.c:161-176 | on a consistent file system the inode taken is an empty file, nobody holds its number, and no other file changes |
| `Ownership.OwnedIsExact` | oslab2024spring/kernel/src/fs.c:184-214 | reads off the invariant that every method of Inodes keeps: the set bits are exactly the reserved blocks and the blocks named by an address or indirect entry of some inode, and no block is named twice |
| `Ownership.GrowAddr` | oslab2024spring/kernel/src/fs.c:390-416 | linking a fresh block into an inode's addresses keeps ownership exact and changes no byte of any file |
| `Ownership.GrowEntry` | oslab2024spring/kernel/src/fs.c:390-416 | the same for an entry of the indirect block |
| `Ownership.WroteMore` | oslab2024spring/kernel/src/fs.c:437-460 | a chunk written to one block of a file extends what has been written so far, and no other file can tell |
| `Inodes.Fs.Iwalk` | oslab2024spring/kernel/src/fs.c:390-416 | yields the block under a block number, allocating on demand; files read as before, ownership stays exact, and it stops only behind the last possible block or on a full disk |
| `Inodes.Fs.Iget` | oslab2024spring/kernel/src/fs.c:219-240 | an inode already held gains a reference in its slot, any other is loaded into a free slot, so a number is never in two slots; stops exactly when all slots hold other inodes |
| `Inodes.Fs.Iread` | oslab2024spring/kernel/src/fs.c:418-435 | returns exactly the bytes of the file in the window asked for, and changes no file, though it may allocate blocks of zeros; stops only on a full disk or at the largest file size, and always there |
| `Inodes.Fs.Iwrite` | oslab2024spring/kernel/src/fs.c:437-460 | past the end nothing happens and the result is -1; otherwise the buffer lies over the old contents at that offset, the file grows if need be, and no other file changes |
| `Inodes.WriteThenRead` | oslab2024spring/kernel/src/fs.c:418-460 | reading a window just written gives the buffer, reading any window apart from it gives what it gave before |
| `Inodes.Fs.Itrunc` | oslab2024spring/kernel/src/fs.c:463-488 | frees exactly the blocks of the file, direct, indirect and listed; the file is empty and no other file changes |
| `Inodes.Fs.Iclose` | oslab2024spring/kernel/src/fs.c:496-503 | drops one reference; the last one of an unlinked inode frees its blocks and zeroes the inode, otherwise no file changes |
| `Files.DeletedFiles` | oslab2024spring/kernel/src/fs.c:496-503 | freeing an unlinked inode removes that file and no other |
| `Directories.Scan` | oslab2024spring/kernel/src/fs.c:296-318 | the loop over the entries finds the first entry with the name, or shows there is none and where a new entry goes |
| `Directories.Idirinit` | oslab2024spring/kernel/src/fs.c:280-294 | a new directory holds exactly the entries . and .., naming itself and its parent |
| `Directories.Ilookup` | oslab2024spring/kernel/src/fs.c:296-333 | opens the inode a directory gives for a name, or none, or a new one entered under it; references grow by exactly one on the result |
| `Directories.Icreate` | oslab2024spring/kernel/src/fs.c:318-333 | the new inode is empty, or a directory with its two dots; one entry is added, all other entries and files are as before |
| `Dirents.OverlayEntry` | oslab2024spring/kernel/src/fs.c:280-294 | writing a dirent sets the number and name of that entry and leaves all others |
| `Paths.Skipelem` | oslab2024spring/kernel/src/fs.c:261-278 | cuts off the first name, at most 27 bytes of it; what remains holds the other names |
| `Namei.IopenParent` | oslab2024spring/kernel/src/fs.c:335-369 | leads to the directory that walking all names but the last leads to, or to none (PathLaws says where that is); one reference more on the result, none on anything else |
| `Namei.Iopen` | oslab2024spring/kernel/src/fs.c:371-388 | opens what the path names, or creates it in its parent if a type is given; references balance on every way out |
| `Namei.OpenIsResolve` | oslab2024spring/kernel/src/fs.c:335-388 | without creation, opening is a fold of directory lookup over the names of the path, from the root or the working directory, and changes no file |
| `PathLaws.OneName` | oslab2024spring/kernel/src/fs.c:335-388 | a single name is looked up in the working directory, cut to 27 bytes if it is longer, and that directory is its parent |
| `PathLaws.NoDirectory` | oslab2024spring/kernel/src/fs.c:347-352 | in what is not a directory no name is found |
| `PathLaws.FromRoot` | oslab2024spring/kernel/src/fs.c:340-344 | with a slash in front the same path starts in the root |
| `PathLaws.StepByStep` | oslab2024spring/kernel/src/fs.c:346-366 | a path of two parts leads where its second part leads from where the first one leads; so do its parents |
| `PathLaws.SpareSlash` | oslab2024spring/kernel/src/fs.c:261-278 | slashes that are repeated or trail change nothing |
| `PathLaws.NoName` | oslab2024spring/kernel/src/fs.c:371-379 | a path of slashes alone is the root, the empty path is nothing, and neither has a parent |
| `PathLaws.Dot` | oslab2024spring/kernel/src/fs.c:280-294 | in a consistent system the name . leads to the directory itself |
| `PathLaws.DotDot` | oslab2024spring/kernel/src/fs.c:280-294 | the name .. leads to the directory that has this one under some name, and from the root to the root |
| `PathLaws.DownAndUp` | oslab2024spring/kernel/src/fs.c:335-388 | down into a directory and up by .. leads back |
| `Namei.Idirempty` | oslab2024spring/kernel/src/fs.c:529-542 | true exactly when every entry behind the two dots is unused |
| `Namei.Iremove` | oslab2024spring/kernel/src/fs.c:544-579 | -1 exactly for a missing name, a dot name or a directory with entries, and then nothing changes; otherwise the entry goes, and the inode with it unless somebody holds it, who then has it marked |
| `Namei.NamesUnique` | oslab2024spring/kernel/src/fs.c:296-333 | no directory ever has a name twice |
| `Namei.LookupAfterCreate` | oslab2024spring/kernel/src/fs.c:318-333 | a name just created leads to the new inode, every other name where it led before |
| `Namei.LookupAfterRemove` | oslab2024spring/kernel/src/fs.c:544-579 | a name just removed leads nowhere, every other name where it led before |
| `Namei.OpenedIsThere` | oslab2024spring/kernel/src/fs.c:335-388 | a path that has been opened or created leads to that inode from then on |
| `Namei.OpenedKeeps` | oslab2024spring/kernel/src/fs.c:335-388 | creation anywhere changes where no other path leads, and the contents of no file |
| `Inodes.Fs.SetDevice` | oslab2024spring/kernel/src/fs.c:521-527 | the number of a device inode is set, on disk too; no other file changes |
| `Namespace.CreateSystem` | oslab2024spring/kernel/src/fs.c:318-333 | creation keeps the directory tree: dots right, one entry per inode, every inode reachable or held unlinked |
| `Namespace.RemoveSystem` | oslab2024spring/kernel/src/fs.c:544-579 | removal keeps it too, unless the inode is a directory that is open |
| `Namespace.CloseSystem` | oslab2024spring/kernel/src/fs.c:496-503 | so does the last close of an unlinked inode |
| `Namespace.EveryDirReachesRoot` | oslab2024spring/kernel/src/fs.c:280-294 | from every directory, following .. often enough ends at the root |
| `Namei.UnlinkSystem` | oslab2024spring/kernel/src/fs.c:544-579 | after a successful removal the tree is intact if and only if the inode was not an open directory |
| `OpenFiles.FileTable.Fopen` | oslab2024spring/kernel/src/file.c:20-69 | opens, creates or empties what the path names, or refuses and leaves no reference behind (OpenLaws says which, mode by mode); every inode reference still belongs to an open file or a working directory |
| `OpenLaws.MakesDirectory` | oslab2024spring/kernel/src/file.c:30-51 | a path that leads nowhere, opened with O_CREATE and O_DIR, leads to a directory with nothing but its dots; opened for writing or emptying as well, it is made all the same and refused |
| `OpenLaws.MakesFile` | oslab2024spring/kernel/src/file.c:30-58 | with O_CREATE alone it leads to an empty file, on which the entry is |
| `OpenLaws.FindsNothing` | oslab2024spring/kernel/src/file.c:30-42 | without O_CREATE, or without a directory to hold the name, nothing is opened and no file changes |
| `OpenLaws.OpensFile` | oslab2024spring/kernel/src/file.c:43-58 | a file that is there is refused as a directory; otherwise it is opened, and emptied by O_TRUNC alone |
| `OpenLaws.OpensDirectory` | oslab2024spring/kernel/src/file.c:43-58 | a directory that is there is opened for reading, and refused to whoever wants to write or empty it |
| `OpenLaws.OpensDevice` | oslab2024spring/kernel/src/file.c:59-63 | a device node is opened in any mode, with its number |
| `OpenLaws.Access` | oslab2024spring/kernel/src/file.c:64-86 | what was opened is read from its first byte on unless O_WRONLY was asked for, and written exactly if O_WRONLY or O_RDWR was |
| `OpenLaws.ReadInParts` | oslab2024spring/kernel/src/file.c:71-86 | two reads in a row give what one read gives |
| `OpenLaws.WrittenIsRead` | oslab2024spring/kernel/src/file.c:71-118 | what was written is read by who goes back to where the writing began |
| `OpenFiles.FileTable.Fread` | oslab2024spring/kernel/src/file.c:71-86 | -1 if not readable; of a file what it holds at the offset, which moves on by as much; for a device, that its own function is to be called; no file changes |
| `OpenFiles.FileTable.Fwrite` | oslab2024spring/kernel/src/file.c:88-103 | -1 if not writable, or past the end of a file; otherwise the buffer is laid over the file at the offset, which moves on; for a device, that its own function is to be called |
| `OpenFiles.FileTable.Fseek` | oslab2024spring/kernel/src/file.c:105-118 | the offset goes where it is told, also past the end; -1 for a device (OpenLaws says where, whence by whence) |
| `OpenLaws.EndAppends` | oslab2024spring/kernel/src/file.c:105-118 | from the end with 0, a write appends to the file |
| `OpenLaws.SetAndCur` | oslab2024spring/kernel/src/file.c:105-118 | SEEK_SET goes to the place given, SEEK_CUR goes on or back, and with 0 stays |
| `OpenLaws.NoPlace` | oslab2024spring/kernel/src/file.c:105-118 | on a device the result is -1 and nothing moves |
| `OpenFiles.PastTheEnd` | oslab2024spring/kernel/src/file.c:71-118 | past the end of a file nothing is read, and nothing can be written |
| `OpenFiles.FileTable.Fdup` | oslab2024spring/kernel/src/file.c:120-124 | one reference more on the open file, none on its inode |
| `OpenFiles.FileTable.Fclose` | oslab2024spring/kernel/src/file.c:126-131 | the last reference gives back the inode's; of all files only an unlinked one nobody else holds goes |
| `OpenFiles.FileTable.Chdir` | oslab2024spring/kernel/src/syscall.c:265-278 | moves exactly when the path leads to a directory, which is then open in place of the old one |
| `OpenFiles.FileTable.Unlink` | oslab2024spring/kernel/src/fs.c:544-579 | as iremove; the books of the open files balance afterwards if and only if no open directory was unlinked |
| `OpenLaws.RefusedWhen` | oslab2024spring/kernel/src/fs.c:529-579 | refused is exactly a path that leads nowhere, the root, a dot name, and a directory with an entry besides its dots |
| `OpenLaws.UnlinkedIsGone` | oslab2024spring/kernel/src/fs.c:544-579 | after an unlink the path leads nowhere, and no path leads to anything else than before |
| `Mkfs.Image.Balloc` | oslab2024spring/utils/mkfs.c:148-154 | hands out blocks in order and marks them the way the kernel reads the bitmap |
| `Mkfs.Image.Iwalk` | oslab2024spring/utils/mkfs.c:165-186 | the block under a block number, allocated on demand, in the kernel's own layout |
| `Mkfs.Image.Iappend` | oslab2024spring/utils/mkfs.c:188-204 | appends the bytes to the file, no other file changes; panics only on a full image or a file too big |
| `Mkfs.Image.InitDisk` | oslab2024spring/utils/mkfs.c:128-146 | superblock, bitmap and a root directory with just its dots: an image the kernel's invariants hold of |
| `Mkfs.Image.AddFile` | oslab2024spring/utils/mkfs.c:206-224 | one inode and one entry in the root more, holding exactly the bytes given |
| `Mkfs.Image.Build` | oslab2024spring/utils/mkfs.c:108-126 | for any files with distinct names, the image satisfies block ownership and the directory tree, and the kernel's lookup leads to every file with exactly its bytes; it panics only when blocks or inodes run out or a file is too big |
| `BitBytes.ViewMarked` | oslab2024spring/utils/mkfs.c:148-154 | setting a bit in a byte of the bitmap, as the builder does, sets the same bit in the word the kernel reads, and no other |
| `Boot.BootImage` | oslab2024spring/kernel/src/main.c:13-61 | an image made by mkfs comes up as a kernel all of whose invariants hold, with the device nodes in place, in which the path of every file put in leads to a file with its bytes; it does not come up only if something is called dev that is no directory, or for want of space |
| `Boot.ReadBack` | oslab2024spring/kernel/src/loader.c:9-42 | the kernel reads back every file mkfs was given, unless it has the largest size or the disk or the inode table is exhausted |
| `Boot.DevInTheWay` | oslab2024spring/kernel/src/dev.c:24-29 | an image with a file called dev is one that does not come up |
| `Devices.Iadddev` | oslab2024spring/kernel/src/fs.c:521-527 | the node is opened or created and gets its number; stops only if its directory is missing or something is exhausted |
| `Devices.InitDev` | oslab2024spring/kernel/src/dev.c:24-29 | /dev/serial and /dev/null are there with their numbers, devices if they are new; every path leads where it led, and no file has changed |
| `Devices.AllUp` | oslab2024spring/kernel/src/dev.c:24-29 | what the three openings of init_dev come to, whatever was on the disk |
| `Loader.LoadFile` | oslab2024spring/kernel/src/loader.c:9-42 | a window of the file the path leads to, none without one; no reference is left, no file changes |
| `ProcRuns.StepInv` | oslab2024spring/kernel/src/syscall.c:110-195 | every kernel entry keeps the process and semaphore invariant: child counts, zombies announced once, queues, references |
| `ProcRuns.EveryRun` | oslab2024spring/kernel/src/syscall.c:110-195 | after any run from boot the invariant holds; the exits are, as a multiset, the waits answered plus the zombies left; no pid is reaped twice; an open semaphore's value, and that of the serial line, is its opening value plus Vs minus Ps let through; getchar and the serial interrupt are steps like any other |
| `ProcSteps.WaitEndReaps` | oslab2024spring/kernel/src/syscall.c:130-150 | a process past the semaphore of wait finds a zombie child at once, so the loop of wait never goes round, and the zombie's entry is freed |
| `ProcInvariant.ForkInv` | oslab2024spring/kernel/src/syscall.c:114-122 | fork keeps all counts: one child more, and one reference more per open semaphore |
| `ProcInvariant.ForkMeans` | oslab2024spring/kernel/src/syscall.c:114-122 | without an unused entry behind the idle process nothing changes; otherwise one unused entry becomes a copy of the caller: its child, ready, with the next number and no children yet; nothing else changes but the number of the caller's children and the references to its semaphores |
| `ProcRuns.InitInv` | oslab2024spring/kernel/src/main.c:27-61 | the state after boot satisfies the invariant |
| `ProcFair.RoundRobin` | oslab2024spring/kernel/src/proc.c:199-209 | a READY process runs before the scheduler has been called more often than there are entries between it and the running one, at most 64, whatever the others do |
| `ProcFair.ReadyStays` | oslab2024spring/kernel/src/proc.c:199-209 | nothing but the scheduler takes a process out of READY, and each call brings the processor closer to it |
| `ProcFair.FirstComeFirstServed` | oslab2024spring/kernel/src/sem.c:10-32 | with i processes before it in a semaphore's queue, a process is READY by the time i+1 Vs have been performed, whoever performs them |
| `ProcFair.CountingRun` | oslab2024spring/kernel/src/sem.c:5-32 | all values stay at or above 0 throughout a run if and only if no sem_open with a negative value succeeds in it |
| `ProcFair.CountingStep` | oslab2024spring/kernel/src/sem.c:5-32 | the same for one step, both ways |
| `ProcFair.NegativeOpen` | oslab2024spring/kernel/src/sem.c:10-21 | the first shell opens a semaphore with -1, and one P leads to -2 without blocking |
| `ProcFair.NegativeNeverBlocks` | oslab2024spring/kernel/src/sem.c:10-21 | a P on a negative value blocks nobody and leads further down |
| `ProcInvariant.NextReadyFinds` | oslab2024spring/kernel/src/proc.c:199-209 | the scheduler's search reaches a READY entry within as many probes as lie between |
| `ProcTables.ProcTable.NextProc` | oslab2024spring/kernel/src/proc.c:199-209 | the unbounded loop of schedule stops, at the first READY entry behind the running one, because entry 0 can always run |
| `ProcTables.ProcTable.Schedule` | oslab2024spring/kernel/src/proc.c:199-209 | that entry becomes the running one |
| `ProcTables.ProcTable.SemP` | oslab2024spring/kernel/src/sem.c:10-21 | counts down, or queues the process last and gives up the processor |
| `ProcTables.ProcTable.SemV` | oslab2024spring/kernel/src/sem.c:23-32 | hands over to the process queued first without counting up, or counts up |
| `ProcTables.ProcTable.ProcAlloc` | oslab2024spring/kernel/src/proc.c:22-55 | takes the first unused entry from 1 on and makes it a blank process with the next pid; changes nothing if there is none |
| `ProcTables.ProcTable.ProcCopycurr` | oslab2024spring/kernel/src/proc.c:89-114 | the child gets every semaphore of its parent, each with one reference more, and the parent one child more |
| `ProcTables.ProcTable.ProcMakezombie` | oslab2024spring/kernel/src/proc.c:116-146 | the process becomes a zombie with its code, its children orphans, its parent is told once, its semaphores are given up |
| `ProcTables.ProcTable.ProcFindzombie` | oslab2024spring/kernel/src/proc.c:148-158 | the first zombie child of the running process, if any |
| `ProcTables.ProcTable.SysWait` | oslab2024spring/kernel/src/syscall.c:130-150 | in place, the table does what the transition system says; the pid and code returned are those of the zombie reaped |
| `ProcTables.ProcTable.Continue` | oslab2024spring/kernel/src/sem.c:10-21 | what a process does when it is run again behind a semaphore it waited on |
| `ProcTables.ProcTable.SysSemOpen` | oslab2024spring/kernel/src/syscall.c:152-164 | a free slot leads to a free semaphore with that value, or -1 if either is missing |
| `ProcTables.ProcTable.UsemAlloc` | oslab2024spring/kernel/src/sem.c:37-47 | the semaphore initialised anew has nobody waiting on it |
| `ProcTables.ProcTable.SysSemP` | oslab2024spring/kernel/src/syscall.c:166-174 | -1 without such a semaphore, otherwise the P; list_enqueue finds a node |
| `ProcTables.ProcTable.SysSemV` | oslab2024spring/kernel/src/syscall.c:176-184 | -1 without such a semaphore, otherwise the V |
| `ProcTables.ProcTable.SysSemClose` | oslab2024spring/kernel/src/syscall.c:186-195 | the slot is empty and the semaphore has one reference less |
| `ProcTables.ProcTable.EnoughNodes` | oslab2024spring/kernel/klib/list.c:43-48 | in every state of the kernel the pool has a free node, so the assertion of list_enqueue never fires |
| `Lists.ListPool.Enqueue` | oslab2024spring/kernel/klib/list.c:43-48 | relinking nodes in place puts the item last in that list, takes one node from the free list, and leaves all other lists |
| `Lists.ListPool.Dequeue` | oslab2024spring/kernel/klib/list.c:50-58 | takes the item queued first and gives its node back; nothing happens on an empty list |
| `Lists.ListPool.HasFree` | oslab2024spring/kernel/klib/list.c:9-48 | if what is queued are different numbers below 256, a node is free: every node is on exactly one list |
| `SystemCalls.Kernel.constructor` | oslab2024spring/kernel/src/main.c:27-61 | the idle process and the first shell, standing in the root: all books balance |
| `ProcTables.ProcTable.Getchar` | oslab2024spring/kernel/src/serial.c:91-106 | the P on the semaphore of the serial line, by any process; list_enqueue finds a node |
| `ProcTables.ProcTable.Key` | oslab2024spring/kernel/src/serial.c:41-45 | the V of the serial interrupt, whoever is running, the idle process too |
| `SystemCalls.Kernel.SysFork` | oslab2024spring/kernel/src/syscall.c:114-122 | -1 exactly if every entry is taken, and then nothing changes; otherwise the number of the new child, which shares descriptors, semaphores and directory; every reference count equals what is held |
| `SystemCalls.Kernel.SysExit` | oslab2024spring/kernel/src/syscall.c:124-128 | everything the process held is given back; of all files only unlinked ones it held last go |
| `SystemCalls.Kernel.SysWait` | oslab2024spring/kernel/src/syscall.c:130-150 | as in the table, with the file side untouched |
| `SystemCalls.Kernel.SysOpen` | oslab2024spring/kernel/src/syscall.c:197-208 | a free descriptor leads to what open gives, or -1 and nothing is held; stops only when the disk, the inode table or a directory is exhausted |
| `CallLaws.OpenGives` | oslab2024spring/kernel/src/syscall.c:197-208 | the descriptor returned was free and leads to the open file, every other one where it led; -1 only without a free descriptor, without a free entry, or if opening was refused |
| `SystemCalls.Kernel.SysClose` | oslab2024spring/kernel/src/syscall.c:210-219 | the descriptor is free, and one reference given back |
| `SystemCalls.Kernel.SysDup` | oslab2024spring/kernel/src/syscall.c:221-236 | the lowest free descriptor leads to the same open file |
| `CallLaws.RefiledMeans` | oslab2024spring/kernel/src/syscall.c:210-236 | after dup or close this descriptor leads to the file given, or nowhere, and all others where they led |
| `SystemCalls.Kernel.SysChdir` | oslab2024spring/kernel/src/syscall.c:265-278 | 0 exactly when the path leads to a directory, where the process then stands |
| `SystemCalls.Kernel.SysRead` | oslab2024spring/kernel/src/syscall.c:43-52 | -1 without a descriptor; otherwise as fread, and every book balances |
| `SystemCalls.Kernel.SysWrite` | oslab2024spring/kernel/src/syscall.c:32-41 | -1 without a descriptor; otherwise as fwrite, and every book balances |
| `SystemCalls.Kernel.SysLseek` | oslab2024spring/kernel/src/syscall.c:237-246 | -1 without a descriptor; otherwise as fseek |
| `SystemCalls.Kernel.LoadFile` | oslab2024spring/kernel/src/loader.c:9-42 | one read of a file by path, for exec and for the first shell: the bytes of the file the path leads to, none without one; references balance |
| `SystemCalls.Kernel.SysUnlink` | oslab2024spring/kernel/src/syscall.c:280-282 | every book balances afterwards if and only if the path did not name a directory that some slot of the inode table held before the call |
| `SystemCalls.Kernel.SysSemOpen` | oslab2024spring/kernel/src/syscall.c:152-164 | as in the table, with the file side untouched |
| `CallLaws.SemOpenMeans` | oslab2024spring/kernel/src/syscall.c:152-164 | without an empty slot or a free semaphore nothing changes; otherwise the number given leads to a semaphore nobody had, with that value and one reference |
| `CallLaws.PThenV` | oslab2024spring/kernel/src/syscall.c:166-184 | a P that need not wait is taken back by a V: the state is the same |
| `CallLaws.SemCloseMeans` | oslab2024spring/kernel/src/syscall.c:186-195 | after closing, that number leads nowhere, one reference is gone, no value has changed |
| `SystemCalls.Kernel.SysYield` | oslab2024spring/kernel/src/syscall.c:110-112 | the processor changes hands and nothing else, also when the timer ticks while the idle process runs |
| `OpenDirectory.SubSystem` | oslab2024spring/kernel/src/fs.c:544-579 | a file system with an empty directory in which a process stands satisfies every invariant |
| `OpenDirectory.UnlinkInUse` | oslab2024spring/kernel/src/fs.c:544-579 | there, unlinking the directory is not refused |
| `OpenDirectory.UnlinkBreaks` | oslab2024spring/kernel/src/fs.c:544-579 | and whatever state it leaves is not a directory tree any more |
| `Serial.Port.PushBack` | oslab2024spring/kernel/src/serial.c:38-47 | a character joins the line being typed; a newline completes it and announces each of its characters once |
| `Serial.Port.PopBack` | oslab2024spring/kernel/src/serial.c:49-54 | takes back the last character of the unfinished line, never one of a completed line |
| `Serial.Port.SerialHandle` | oslab2024spring/kernel/src/serial.c:63-89 | a burst of input has the effect of its keys one by one; LineLaws says what that is |
| `LineLaws.Enter` | oslab2024spring/kernel/src/serial.c:63-89 | a word and Enter, sent as carriage return or as newline, complete the line |
| `LineLaws.TakenBack` | oslab2024spring/kernel/src/serial.c:74-79 | backspace and delete take back the character typed before them |
| `LineLaws.NothingToTake` | oslab2024spring/kernel/src/serial.c:49-54 | on an empty line they do nothing, so completed lines stay |
| `LineLaws.Ignored` | oslab2024spring/kernel/src/serial.c:83-87 | any other control character does nothing |
| `LineLaws.SpecialKey` | oslab2024spring/kernel/src/serial.c:69-71 | of a special key and what comes with it nothing stays, and what came before counts |
| `LineLaws.Corrected` | oslab2024spring/kernel/src/serial.c:63-89 | a line with a slip that was taken back is the line without it |
| `Serial.VsWake` | oslab2024spring/kernel/src/sem.c:23-32 | n Vs count n times in all and wake processes in the order in which they came |
| `Serial.Port.Complete` | oslab2024spring/kernel/src/serial.c:41-46 | completing a line does one V for each of its characters |
| `Serial.Port.Getchar` | oslab2024spring/kernel/src/serial.c:91-106 | waits exactly when no completed character is left for this reader; otherwise returns the next one, and the assertion never fires |
| `Serial.Port.GetcharResume` | oslab2024spring/kernel/src/serial.c:91-106 | a reader that was woken gets a character, so the assertion does not fire there either |
| `Serial.Port.NoLostWakeup` | oslab2024spring/kernel/src/serial.c:38-106 | reads off the invariant that every method of the port keeps: nobody waits while a completed character belongs to nobody |
| `Serial.Port.Delivered` | oslab2024spring/kernel/src/serial.c:38-106 | reads off the same invariant: while the ring has not been overrun, what readers got is a prefix of the completed lines after backspace editing |
| `Console.JoinedStep` | oslab2024spring/kernel/src/serial.c:91-106 | every step of the processes keeps the queue of the serial line, and the list of processes let through to a character, exactly what getchar and the interrupt make them; no other call can take or give a turn |
| `Console.EveryRun` | oslab2024spring/kernel/src/serial.c:38-106 | after any run from boot: characters announced = characters fetched + the value of the semaphore + the processes let through that have not gone on yet |
| `Console.NeverEmptyHanded` | oslab2024spring/kernel/src/serial.c:91-106 | in any run, whenever a getchar gets past its semaphore, at once or after it slept, a character has been announced that nobody has fetched |
| `Console.NobodyForgotten` | oslab2024spring/kernel/src/serial.c:38-106 | while a process sleeps in getchar, every announced character not fetched yet is promised to a process that is awake, one each |
| `Console.Terminal.constructor` | oslab2024spring/kernel/src/serial.c:11-22 | at boot the line is empty, nobody waits and nothing is announced |
| `Console.Terminal.Interrupt` | oslab2024spring/kernel/src/serial.c:63-89 | a burst of input edits the line, and the process table has one V for every character completed |
| `Console.Terminal.Getchar` | oslab2024spring/kernel/src/serial.c:91-106 | the running process gets the next character, or it sleeps and another one runs; the assertion never fires |
| `Console.Terminal.Continue` | oslab2024spring/kernel/src/serial.c:91-106 | any process of the table that was let through gets a character when it is run again, so the assertion never fires there |
| `Console.Terminal.Others` | oslab2024spring/kernel/src/syscall.c:110-195 | every other kernel entry keeps port and process table in step |
| `Machine.Machine.constructor` | oslab2024spring/kernel/src/main.c:27-61 | a kernel that has come up, with its terminal, at the start of its history |
| `Machine.Machine.Tick` | oslab2024spring/kernel/src/timer.c:18-21 | the timer, whoever runs: everything stays in balance, and the step of the transition system is taken |
| `Machine.Machine.Fork` | oslab2024spring/kernel/src/syscall.c:114-122 | at any time in a run from boot: -1 exactly if every entry is taken; otherwise the number of a new child, at least 2, which no process has and none that exited had |
| `Machine.Machine.Exit` | oslab2024spring/kernel/src/syscall.c:124-128 | the exit is entered with the number of the process and this code |
| `Machine.Machine.Wait` | oslab2024spring/kernel/src/syscall.c:130-150 | -1 exactly without children; otherwise the number and code returned are entered as reported, or the process sleeps and nothing is |
| `Machine.Machine.Open` | oslab2024spring/kernel/src/syscall.c:197-208 | the files, the table and the descriptor returned are as SysOpen has them, in any run |
| `Machine.NeverStuck` | oslab2024spring/kernel/src/proc.c:199-210 | something can always happen, a process in user mode may make any call, and the first tick runs the first shell |
| `Machine.Machine.Fill` | oslab2024spring/kernel/src/serial.c:113-120 | serial_read hands out the next characters typed, up to the end of a line or as many as asked for, or sleeps in the middle |
| `Machine.Machine.Go` | oslab2024spring/kernel/src/serial.c:91-120 | a process that slept in a read goes on with what it had, and ends or sleeps again; others go on behind their wait or semaphore |
| `Machine.Machine.Read` | oslab2024spring/kernel/src/file.c:71-86 | read on a file, on the serial line or on the null device |
| `Machine.Machine.Write` | oslab2024spring/kernel/src/file.c:88-103 | write on a file, on the serial line or on the null device |
| `Machine.Machine.Unlink` | oslab2024spring/kernel/src/syscall.c:280-282 | everything stays in balance unless a directory in use went, which the inode table then shows |
| `Machine.Machine.Enter` | oslab2024spring/kernel/src/syscall.c:14-30 | whatever can happen next, a call, an interrupt or a process going on: all books balance afterwards and exactly its events have happened |
| `Machine.Machine.Run` | oslab2024spring/kernel/src/syscall.c:14-30 | for any sequence of these, as long as the machine does not stop: all books balance, and the state is that of a run of the transition system from boot, entry by entry |
| `Machine.Machine.Accounts` | oslab2024spring/kernel/src/syscall.c:114-150 | at any time in such a run: exits are waits answered plus zombies, none twice; characters announced and not fetched are those in the buffer; what readers got is what was typed |
| `Machine.RunsOn` | oslab2024spring/kernel/src/syscall.c:14-30 | what a history leads to does not depend on how it is cut into entries |
| `PowerOn.SwitchOn` | oslab2024spring/kernel/src/main.c:13-61 | the same from an image that mkfs wrote: boot, and then any run |
| `Producers.StepInv` | oslab2024spring/user/src/phase4/producer.c:23-45 | every semaphore operation of a producer or consumer keeps the counts and queues |
| `Producers.NoDeadlock` | oslab2024spring/user/src/phase4/producer.c:23-45 | with a process of each kind, somebody can always go on |
| `Producers.EveryRun` | oslab2024spring/user/src/phase4/producer.c:23-45 | for any numbers of producers and consumers and any schedule: at most 32 items and never fewer than none, one process at most in the critical section, never a deadlock |
| `ProducerRuns.Projects` | oslab2024spring/user/src/phase4/producer.c:23-45 | a run of the kernel in which the workers follow their program is, on their three semaphores, a run of producers and consumers; whatever else happens is invisible there |
| `ProducerRuns.InKernel` | oslab2024spring/user/src/phase4/producer.c:23-45 | so in the kernel, among any other processes: at most 32 items, one worker in the critical section, and some worker is not asleep |
| `ProducerRuns.SemStays` | oslab2024spring/kernel/src/sem.c:10-47 | a semaphore with a reference stays as it is unless an operation is about it |
| `Malloc.Allocator.FindPlace` | oslab2024spring/user/ulib/stdlib.c:34-54 | the walk round the circular list stops, at the free block the freed one belongs behind |
| `Malloc.Allocator.Free` | oslab2024spring/user/ulib/stdlib.c:34-54 | the block is free and merged with every neighbour it touches; all live blocks keep place, size and contents; the list stays circular, ordered, and without touching blocks |
| `Malloc.Allocator.Morecore` | oslab2024spring/user/ulib/stdlib.c:56-71 | gets at least 4096 units more and puts them on the list, or fails and changes nothing |
| `Malloc.Allocator.Search` | oslab2024spring/user/ulib/stdlib.c:73-100 | ends after at most one request for more memory, at a block large enough, or with failure exactly when none fits and no more is to be had |
| `Malloc.Allocator.Malloc` | oslab2024spring/user/ulib/stdlib.c:73-100 | a new live block of exactly the units needed, apart from all live ones, which keep their contents; NULL exactly when no free block fits and sbrk fails |
| `Malloc.Allocator.UserWrite` | oslab2024spring/user/ulib/stdlib.c:34-100 | a program writing inside its own block breaks nothing and changes no other block |
| `Malloc.EveryUnit` | oslab2024spring/user/ulib/stdlib.c:34-100 | every unit obtained from sbrk lies in exactly one block, live or free |
| `HeapBlocks.FreedInv` | oslab2024spring/user/ulib/stdlib.c:34-54 | inserting and merging keep the heap invariant |
| `Regex.Match` | oslab2024spring/user/src/phase6/grep.c:68-78 | true if and only if some part of the text, tied down by a leading ^ or final $, is made of one piece for each item of the pattern |
| `Regex.MatchHere` | oslab2024spring/user/src/phase6/grep.c:80-92 | the same from the start of the text; ends because the pattern shrinks |
| `Regex.MatchStar` | oslab2024spring/user/src/phase6/grep.c:94-102 | true if and only if, behind some number of accepted characters, the rest matches |
| `RegexLaws.Words` | oslab2024spring/user/src/phase6/grep.c:62-102 | a word without special characters matches exactly where it stands in the text; with ^ at its start, with $ at its end, with both alone |
| `RegexLaws.DotsCount` | oslab2024spring/user/src/phase6/grep.c:80-92 | n dots match n characters, whichever |
| `RegexLaws.Stars` | oslab2024spring/user/src/phase6/grep.c:94-102 | a star takes any number of its character, none included, and behind a dot everything |
| `Grep.Grep` | oslab2024spring/user/src/phase6/grep.c:8-32 | however the bytes arrive in pieces, the output is that of the file as a whole |
| `Grep.OutputIsChosen` | oslab2024spring/user/src/phase6/grep.c:8-32 | if every line fits the buffer and has no NUL, that is the matching lines in order |
| `Grep.Drain` | oslab2024spring/user/src/phase6/grep.c:8-32 | one round over the buffer writes the complete lines that match and keeps the incomplete rest |
| `Shell.Parser.Gettoken` | oslab2024spring/user/src/phase6/sh.c:259-302 | takes off and returns the next token of the line |
| `Shell.Parser.Peek` | oslab2024spring/user/src/phase6/sh.c:304-314 | tells whether the next token is one of the symbols, and takes nothing off |
| `Shell.Parser.ParseRedirs` | oslab2024spring/user/src/phase6/sh.c:368-391 | takes off all redirections, in order, or stops at one without a file |
| `Shell.Parser.ParseSimple` | oslab2024spring/user/src/phase6/sh.c:409-440 | at most nine words with the redirections among them, as the grammar has it, or the error it gives |
| `Shell.Parser.ParseBlock` | oslab2024spring/user/src/phase6/sh.c:393-407 | a parenthesised line and its redirections, as the grammar has it; ends because tokens are used up |
| `Shell.Parser.ParsePipe` | oslab2024spring/user/src/phase6/sh.c:355-366 | a pipeline, as the grammar has it |
| `Shell.Parser.ParseLine` | oslab2024spring/user/src/phase6/sh.c:338-353 | a line with its & and ;, as the grammar has it |
| `Shell.Parser.NulTerminate` | oslab2024spring/user/src/phase6/sh.c:442-487 | a NUL behind every word of the command, and nowhere else |
| `Shell.Parser.ParseCmd` | oslab2024spring/user/src/phase6/sh.c:321-336 | panics exactly when the tokens are not a command; otherwise each word of the result is a NUL-terminated string in the buffer, the word it was in the line |
| `ShellGrammar.PrintedParses` | oslab2024spring/user/src/phase6/sh.c:321-440 | every command tree of the right shape, printed with the parentheses it needs, parses back to itself |
| `ShellTokens.ParsePrinted` | oslab2024spring/user/src/phase6/sh.c:258-440 | the same for the text itself: the characters of a printed tree, cut into tokens again and parsed, give the tree |
| `ShellLaws.WhiteIsWhite` | oslab2024spring/user/src/phase6/sh.c:255-275 | tab, carriage return, newline and vertical tab separate words as a blank does |
| `ShellLaws.WordToken` | oslab2024spring/user/src/phase6/sh.c:291-296 | everything up to the next white space or mark is one word |
| `ShellLaws.MarkToken` | oslab2024spring/user/src/phase6/sh.c:276-290 | each of the seven marks is a token by itself, with or without white space around it |
| `ShellLaws.AppendToken` | oslab2024spring/user/src/phase6/sh.c:284-290 | two signs > in a row are one token |
| `ShellLaws.WordsOnly` | oslab2024spring/user/src/phase6/sh.c:393-425 | up to nine words are a command, more are refused |
| `ShellLaws.Marks` | oslab2024spring/user/src/phase6/sh.c:320-393 | a bar is a pipe, a semicolon a list, an ampersand the background, and parentheses only group |
| `ShellLaws.Arrows` | oslab2024spring/user/src/phase6/sh.c:368-391 | <, > and >> with a word are input, output and appended output; without a word they are refused |
| `ShellTokens.WordsApart` | oslab2024spring/user/src/phase6/sh.c:259-302 | the end of one word never lies inside another, so no NUL overwrites a word |
| `Vme.Vm.constructor` | oslab2024spring/kernel/src/vme.c:35-65 | all memory above the kernel is one chain of free pages |
| `Vme.Vm.Kalloc` | oslab2024spring/kernel/src/vme.c:67-78 | takes the first free page, which nobody uses; stops exactly when none is free |
| `Vme.Vm.Kfree` | oslab2024spring/kernel/src/vme.c:80-87 | the page is free again and no address space can tell |
| `Vme.Vm.VmAlloc` | oslab2024spring/kernel/src/vme.c:89-108 | a directory that maps no user page |
| `Vme.Vm.WalkPte` | oslab2024spring/kernel/src/vme.c:120-146 | the table that holds a page's entry, a new and empty one if allowed; no mapping changes |
| `Vme.Vm.Walk` | oslab2024spring/kernel/src/vme.c:148-157 | the frame the page is mapped to, -1 if none; nothing changes |
| `Vme.Vm.VmMap` | oslab2024spring/kernel/src/vme.c:159-182 | maps every page of the range, keeps all mappings there were and the words of all pages, and new pages hold zeros |
| `Vme.RangeMapped` | oslab2024spring/kernel/src/vme.c:159-182 | every address of the range is mapped afterwards, and a page without an address of the range as it was |
| `Vme.Vm.VmCopycurr` | oslab2024spring/kernel/src/vme.c:196-206 | the child maps what the parent maps, with equal words; no other address space changes |
| `Vme.Vm.Store` | oslab2024spring/kernel/src/vme.c:148-157 | a word stored through one page of one address space changes that page only |
| `Vme.ForkIsolates` | oslab2024spring/kernel/src/vme.c:196-206 | copied into a fresh directory, the child has exactly the parent's pages with equal words, and no frame of it is mapped anywhere else |
| `Paging.NeverShared` | oslab2024spring/kernel/src/vme.c:120-182 | reads off the invariant that every method of Vme keeps: no frame is mapped twice, in one address space or in two, or is free at the same time |
| `Numbers.Utoa` | oslab2024spring/lib/src/stdlib/utoa.c:3-39 | writes the digits of the value, most significant first, and a NUL; refuses any base outside 2..36 |
| `Numbers.Itoa` | oslab2024spring/lib/src/stdlib/itoa.c:3-30 | the signed decimal form, the least number included, or the unsigned form in another base |
| `Numbers.NumVal` | oslab2024spring/lib/src/stdlib/utoa.c:18-36 | the digits are digits of that base and denote the value |
| `Numbers.Strtoul` | oslab2024spring/lib/src/stdlib/strtoul.c:3-60 | the value of the digit run behind blanks, sign and prefix, ULONG_MAX if it does not fit, for any base; and where the run ends |
| `Numbers.Strtol` | oslab2024spring/lib/src/stdlib/strtol.c:3-85 | that value with its sign, clamped to what a long holds; 0 for an impossible base |
| `NumberLaws.LeadingBlank` | oslab2024spring/lib/src/stdlib/strtoul.c:16-18 | a blank, tab or newline in front changes no value, and moves the end by one |
| `NumberLaws.PlusSign` | oslab2024spring/lib/src/stdlib/strtoul.c:19-23 | a plus sign in front changes no value |
| `NumberLaws.MinusSign` | oslab2024spring/lib/src/stdlib/strtoul.c:19-23 | a minus sign negates, modulo 2^32 for strtoul, down to the least long for strtol |
| `NumberLaws.HexPrefix` | oslab2024spring/lib/src/stdlib/strtoul.c:24-29 | 0x or 0X is skipped for base 16 and chooses it for base 0 |
| `NumberLaws.OctalPrefix` | oslab2024spring/lib/src/stdlib/strtoul.c:30-31 | a leading 0 chooses base 8 for base 0 |
| `NumberLaws.NoPrefix` | oslab2024spring/lib/src/stdlib/strtoul.c:30-31 | without one, base 0 reads decimal digits |
| `NumberLaws.NoDigits` | oslab2024spring/lib/src/stdlib/strtoul.c:34-59 | without a digit the value is 0 and the end is the beginning |
| `Numbers.Accumulate` | oslab2024spring/lib/src/stdlib/strtol.c:56-76 | the comparison with cutoff and cutlim detects exactly the values above the limit, without overflow |
| `Numbers.UnsignedRoundTrip` | oslab2024spring/lib/src/stdlib/strtoul.c:3-60 | strtoul inverts utoa for every 32-bit value and every base from 2 to 36 |
| `Numbers.SignedRoundTrip` | oslab2024spring/lib/src/stdlib/strtol.c:3-85 | strtol inverts itoa in base 10 for every long |
| `Numbers.Number` | oslab2024spring/lib/src/stdio.c:27-115 | writes exactly the text that sign, prefix, width, precision and padding call for |
| `Numbers.TextLength` | oslab2024spring/lib/src/stdio.c:27-115 | that text has as many characters as the larger of the width and what sign, prefix and digits need |
| `Numbers.TextDenotes` | oslab2024spring/lib/src/stdio.c:27-115 | between the blanks, behind sign and prefix, stand digits that denote the magnitude |
| `NumberLaws.SignedText` | oslab2024spring/lib/src/stdio.c:27-115 | what is printed as a signed number reads back, by strtol, as that number, whatever width, precision and flags |
| `NumberLaws.UnsignedText` | oslab2024spring/lib/src/stdio.c:27-115 | what is printed as an unsigned one reads back by strtoul in its base, and with a prefix also with the base left open |
| `NumberLaws.FirstMark` | oslab2024spring/lib/src/stdio.c:41-60 | the first character behind the blanks is - exactly for a negative number that is signed, + exactly for another one with PLUS |
| `NumberLaws.Justified` | oslab2024spring/lib/src/stdio.c:85-113 | what is missing to the width is blanks behind with LEFT, zeros inside with ZEROPAD, blanks in front otherwise |
| `NumberLaws.NoZerosBehind` | oslab2024spring/lib/src/stdio.c:33-36 | with LEFT the flag ZEROPAD makes no difference |
| `NumberLaws.Letters` | oslab2024spring/lib/src/stdio.c:30-34 | digits above 9 are capital letters exactly with UPPERCASE |

## Findings

Where the code does not do what one would expect of it, the model follows the code:

- A directory can be unlinked while it is open, also as a working directory (fs.c, lines 544-579).
  `SystemCalls.Kernel.SysUnlink` gives the exact condition under which the books still balance, and
  `OpenDirectory.UnlinkInUse` a file system in which it fails.
- `iread` can allocate: it looks up the block behind the bytes it has read, so it may run out of blocks, and
  it stops the machine when a read ends at the largest file size (fs.c, lines 418-435).
- `strtoul` accepts any base, 1 and negative ones included; `strtol` does not (`Numbers.Strtoul`,
  `Numbers.Strtol`). Both skip blanks, tabs and newlines only (lib.h, line 57).
- The comments of sem.c count waiting processes by negative values. The code blocks at 0 only: values stay at or
  above 0 exactly as long as nobody opens a semaphore with a negative one (`ProcFair.CountingRun`); on such a
  semaphore no P ever blocks, and each leads further down (`ProcFair.NegativeOpen`).
- The comment on fseek promises not to go past the end of the file; the code does (`OpenFiles.FileTable.Fseek`), and
  there nothing can be written (`OpenFiles.PastTheEnd`).
- `open` with O_CREATE, O_DIR and a way to write makes the directory and then refuses to open it
  (`OpenLaws.MakesDirectory`).
- An image with a file called dev stops the machine at boot (`Boot.DevInTheWay`).

## Left out

- Machine.Machine.Write: the echo of typed characters on the serial line; only what is written is shown.
- Machine.Machine.Run: the run ends where the machine stops, or with the unlinking of a directory in use.
- Machine.Machine.Read: where in memory the bytes go; a read of the serial line returns them.
- Serial.Port.Getchar: the cursors do not wrap round at 2^31.
- Console.Terminal.Interrupt: the Vs follow the whole burst instead of each newline in it; they wake the same processes in the same order.
- Numbers.Strtol: where the end pointer goes for an impossible base, which the code leaves unset.
- Numbers.Number: the parsing of format strings around it (vsprintf), and its address formats.
- Malloc.Allocator.Malloc: sizes near 2^32, for which the unit count wraps, and other callers of sbrk.
- Vme.Vm.constructor: the identity mapping of the kernel's own memory.
- Vme.Vm.Walk: the call with a protection, which may allocate a table; WalkPte is that call.
- Vme.Vm.VmMap: protection bits of entries that exist already; every mapping is as good as any other.
- Vme.Vm.VmAlloc: the kernel's own tables; the GDT, the TSS and page faults are not part of this model.
- Boot.BootImage: loading the program sh into the first process; the memory, interrupt and timer set-up before it.
- SystemCalls.Kernel.constructor: the same; it starts with two processes and what they stand in.
- SystemCalls.Kernel.LoadFile: the headers of the ELF format and the mapping of segments.
- SystemCalls.Kernel.SysFork: the address space of the child, which Vme copies on its own.
- ProcTables.ProcTable.ProcCopycurr: memory and saved registers; SystemCalls.Kernel.SysFork shares the files.
- ProcTables.ProcTable.ProcMakezombie: the closing of files and directory, which SystemCalls.Kernel.SysExit does.
- ProcTables.ProcTable.SemV: values do not overflow.
- ProcTables.ProcTable.ProcAlloc: the address space, the kernel stack and the saved registers; pids do not overflow. The entry of a zombie whose parent exited first is never reused, as in the code.
- SystemCalls.Kernel.SysUnlink: files created in a directory after it was unlinked; the model stops at the state in which the books no longer balance.
- Mkfs.Image.AddFile: opening and reading the files of the host.
- Shell.Parser.ParseSimple: the command records hold their words in a list while the parser runs; the C code fills a fixed array inside the record.
- Shell.Parser.ParseCmd: running the commands (runcmd), cd and the prompt.
- sys_sleep, sys_exec, sys_brk, sys_fstat, sys_getpid and the system calls without a body.
- Port input and output, interrupts, context switches, and the boot loader: the disk is an array of sectors, and a trap that ends a kernel entry is the end of a step.
- The simpler file system behind EASY_FS, which is compiled out.
- The other user programs, among them the philosophers, where a deadlock is possible.
- The remaining string functions of the library.

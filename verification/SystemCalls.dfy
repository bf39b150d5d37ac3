// kernel/src/syscall.c over the whole kernel state: processes, semaphores, open files and the file
// system below them. Every system call keeps all reference counts equal to what is held.
module SystemCalls {
  import opened Options
  import opened Bytes
  import opened Layout
  import opened Files
  import opened Bags
  import opened Procs
  import opened ProcInvariant
  import opened ProcSteps
  import opened ProcExit
  import opened ProcRuns
  import opened ProcFair
  import opened ProcTables
  import opened Inodes
  import opened Directories
  import opened Namei
  import opened OpenFiles
  import opened FileRefs
  import opened Loader

  function OffsetOf(files: seq<OpenFile>, k: int): nat { if 0 <= k < |files| then files[k].offset else 0 }

  // In the table u, process a has copies of the first i descriptors.
  ghost predicate Copying(u: seq<Proc>, t: seq<Proc>, a: nat, i: nat, slots: seq<int>) {
    && |u| == |t| == PROC_NUM && a < PROC_NUM && |slots| == MAX_UFILE && i <= MAX_UFILE
    && u == t[a := t[a].(files := u[a].files)] && u[a].files == slots[..i] + NoSlots(MAX_UFILE)[i..]
  }

  // In the table u, the first i descriptors of process c are closed.
  ghost predicate Vacating(u: seq<Proc>, t: seq<Proc>, c: nat, i: nat, slots: seq<int>) {
    && |u| == |t| == PROC_NUM && c < PROC_NUM && |slots| == MAX_UFILE && i <= MAX_UFILE
    && u == t[c := t[c].(files := u[c].files)] && u[c].files == NoSlots(MAX_UFILE)[..i] + slots[i..]
  }

  // Every entry behind the idle process is taken.
  predicate NoRoom(t: seq<Proc>) { forall i: nat | 1 <= i < |t| :: t[i].status != Unused }

  // An entry that was unused in t is a child of process c in t', ready to run, with this number.
  ghost predicate NewChild(t: seq<Proc>, t': seq<Proc>, c: nat, pid: int) {
    exists a: nat :: 1 <= a < |t| == |t'| && t[a].status == Unused
      && t'[a].status == Ready && t'[a].parent == c && t'[a].pid == pid
  }

  class Kernel {
    const procs: ProcTable
    const ft: FileTable

    constructor (ft: FileTable, cwd: nat)
      requires ft.Valid(multiset{cwd, cwd}) && forall k | 0 <= k < TOTAL_FILE :: ft.files[k].ref == 0
      ensures Valid() && this.ft == ft && procs.Abs() == Init(cwd)
      ensures fresh(procs) && fresh(procs.Parts())
    {
      hide ProcTables.ProcTable.Wellformed, OpenFiles.FileTable.Valid, FdCounts, Cwds, Inv, Init, Tidy,
        OpenFiles.FileTable.Now, Inodes.Fs.Valid, Inodes.Fs.F, Inodes.Fs.V, Lists.ListPool.Valid, Lists.ListPool.Queues,
        TableOf, SemsOf, ProcTables.ProcTable.Table, ProcTables.ProcTable.Sems;
      this.ft := ft;
      procs := new ProcTable(cwd);
      new;
      ft.NowIs(multiset{cwd, cwd});
      InitInv(cwd);
      InitRefs(cwd, ft.files[..]);
    }

    ghost predicate Valid()
      reads this, procs, procs.pcb, procs.userSem, procs.lists, procs.lists.prev, procs.lists.next, procs.lists.item
      reads ft, ft.files, ft.fs, ft.fs.disk, ft.fs.disk.sectors, ft.fs.disk.cache, ft.fs.inodes
    {
      && Apart() && procs.Wellformed() && Inv(procs.Abs()) && Tidy(procs.Table())
      && Filing(procs.Table())
    }

    // The process side and the file side share no memory.
    ghost predicate Apart() {
      var files: set<object> := {ft, ft.files, ft.fs, ft.fs.inodes, ft.fs.disk, ft.fs.disk.sectors, ft.fs.disk.cache};
      var table: set<object> :=
        {procs, procs.pcb, procs.userSem, procs.lists, procs.lists.prev, procs.lists.next, procs.lists.item};
      files !! table && this !in files && this !in table
    }

    // The books of the file side balance for the process table t.
    ghost predicate Filing(t: seq<Proc>)
      reads ft, ft.files, ft.fs, ft.fs.disk, ft.fs.disk.sectors, ft.fs.disk.cache, ft.fs.inodes
    {
      FdCounts(t, ft.files[..]) && ft.Valid(Cwds(t))
    }

    // Descriptor fd of process p, so far free, leads to open file k as well.
    method Share(p: nat, fd: nat, k: int)
      requires Apart() && procs.Wellformed() && Filing(procs.Table()) && p < PROC_NUM && fd < MAX_UFILE
      requires SlotOf(procs.Table(), p, fd) == NULL && 0 <= k < TOTAL_FILE && ft.files[k].ref >= 1
      modifies procs.pcb, ft.files
      ensures procs.Wellformed() && Filing(procs.Table()) && procs.Sems() == old(procs.Sems())
      ensures procs.Table() == WithFile(old(procs.Table()), p, fd, k)
      ensures ft.Now() == old(ft.Now())
    {
      hide FdCounts, ProcTables.ProcTable.Wellformed, ProcTables.ProcTable.Table, ProcTables.ProcTable.Sems,
        OpenFiles.FileTable.Valid, Cwds, Fds, Marked, OpenFiles.FileTable.Now;
      ghost var t := procs.Table();
      procs.ProcIs(p);
      ft.NowIs(Cwds(t));
      FdLen(t, ft.files[..], p);
      FdMore(t, ft.files[..], p, fd, k);
      WithSameCwds(t, p, fd, k);
      ft.Fdup(k, Cwds(t));
      procs.SetFile(p, fd, k);
    }

    // The child in entry a shares descriptor i of the running process.
    method CopyFile(a: nat, i: nat)
      requires Apart() && procs.Wellformed() && Filing(procs.Table()) && a < PROC_NUM && a != procs.curr
        && i < MAX_UFILE
      requires SlotOf(procs.Table(), a, i) == NULL
      modifies procs.pcb, ft.files
      ensures procs.Wellformed() && Filing(procs.Table()) && procs.Sems() == old(procs.Sems())
      ensures procs.Table() == WithFile(old(procs.Table()), a, i, SlotOf(old(procs.Table()), procs.curr, i))
      ensures ft.Now() == old(ft.Now()) && Marked(ft.fs.inodes[..]) == old(Marked(ft.fs.inodes[..]))
    {
      hide FdCounts, WithFile, ProcTables.ProcTable.Wellformed, ProcTables.ProcTable.Table, ProcTables.ProcTable.Sems,
        OpenFiles.FileTable.Valid, Cwds, Fds, Marked, OpenFiles.FileTable.Now;
      ghost var t := procs.Table();
      procs.ProcIs(procs.curr);
      ft.NowIs(Cwds(t));
      FdLen(t, ft.files[..], procs.curr);
      FdLen(t, ft.files[..], a);
      var k := procs.pcb[procs.curr].files[i];
      if k != NULL {
        FdHeld(t, ft.files[..], procs.curr, i);
        Share(a, i, k);
      } else {
        WithSame(t, a, i);
      }
    }

    // The child in entry a stands where the running process stands.
    method CopyCwd(a: nat)
      requires Apart() && procs.Wellformed() && Filing(procs.Table()) && a < PROC_NUM
      requires procs.Table()[procs.curr].cwd >= 0 && procs.Table()[a].cwd == NULL
      modifies procs.pcb, ft.fs.inodes
      ensures procs.Wellformed() && Filing(procs.Table()) && procs.Sems() == old(procs.Sems())
      ensures procs.Table()
        == old(procs.Table())[a := old(procs.Table())[a].(cwd := old(procs.Table())[procs.curr].cwd)]
      ensures ft.Now() == old(ft.Now()) && Marked(ft.fs.inodes[..]) == old(Marked(ft.fs.inodes[..]))
    {
      hide ProcTables.ProcTable.Wellformed, ProcTables.ProcTable.Table, ProcTables.ProcTable.Sems,
        OpenFiles.FileTable.Valid, Cwds, Fds, Marked, OpenFiles.FileTable.Now, Inv, FdCounts;
      ghost var t := procs.Table();
      procs.ProcIs(procs.curr);
      CwdGain(t, a, t[procs.curr].cwd);
      CwdLoss(t, procs.curr);
      var cwd := procs.pcb[procs.curr].cwd;
      ft.DupCwd(cwd, Cwds(t));
      procs.SetCwd(a, cwd);
      FdSame(t, procs.Table(), ft.files[..]);
    }

    method CopyOne(a: nat, i: nat, ghost t1: seq<Proc>, ghost slots: seq<int>)
      requires Apart() && procs.Wellformed() && Filing(procs.Table()) && a != procs.curr && i < MAX_UFILE
      requires Copying(procs.Table(), t1, a, i, slots) && t1[procs.curr].files == slots
      modifies procs.pcb, ft.files
      ensures procs.Wellformed() && Filing(procs.Table()) && procs.Sems() == old(procs.Sems())
      ensures ft.Now() == old(ft.Now()) && Marked(ft.fs.inodes[..]) == old(Marked(ft.fs.inodes[..]))
      ensures Copying(procs.Table(), t1, a, i + 1, slots)
    {
      hide ProcTables.ProcTable.Wellformed, ProcTables.ProcTable.Table, ProcTables.ProcTable.Sems,
        OpenFiles.FileTable.Valid, FdCounts, Cwds, Fds, Marked, OpenFiles.FileTable.Now, Filing;
      SlotCopied(slots, procs.Table()[a].files, i);
      CopyFile(a, i);
    }

    method CopyFiles(a: nat)
      requires Apart() && procs.Wellformed() && Filing(procs.Table()) && a < PROC_NUM && a != procs.curr
      requires procs.Table()[procs.curr].cwd >= 0 && procs.Table()[a].cwd == NULL
        && procs.Table()[a].files == NoSlots(MAX_UFILE)
      modifies procs.pcb, ft.files, ft.fs.inodes
      ensures procs.Wellformed() && Filing(procs.Table()) && procs.Sems() == old(procs.Sems())
      ensures var c := old(procs.Table())[procs.curr];
        procs.Table() == old(procs.Table())[a := old(procs.Table())[a].(cwd := c.cwd, files := c.files)]
      ensures ft.Now() == old(ft.Now()) && Marked(ft.fs.inodes[..]) == old(Marked(ft.fs.inodes[..]))
    {
      hide ProcTables.ProcTable.Wellformed, ProcTables.ProcTable.Table, ProcTables.ProcTable.Sems,
        OpenFiles.FileTable.Valid, FdCounts, Cwds, Fds, Marked, OpenFiles.FileTable.Now;
      ghost var t := procs.Table();
      procs.ProcIs(procs.curr);
      FdLen(t, ft.files[..], procs.curr);
      CopyCwd(a);
      ghost var slots, t1 := t[procs.curr].files, procs.Table();
      for i := 0 to MAX_UFILE
        invariant procs.Wellformed() && Filing(procs.Table()) && procs.Sems() == old(procs.Sems())
        invariant ft.Now() == old(ft.Now()) && Marked(ft.fs.inodes[..]) == old(Marked(ft.fs.inodes[..]))
        invariant Copying(procs.Table(), t1, a, i, slots)
      {
        hide Filing, Copying;
        CopyOne(a, i, t1, slots);
      }
      assert slots[..MAX_UFILE] == slots && procs.Table()[a].files == slots;
      assert t1[a := t1[a].(files := slots)] == t[a := t[a].(cwd := t[procs.curr].cwd, files := slots)];
    }

    // The child is a copy of the running process, and the parent gets its number.
    method SysFork() returns (r: int)
      requires Valid() && Enabled(procs.Abs(), ForkCall)
      modifies procs`nextPid, procs.pcb, procs.userSem, procs.lists.prev, procs.lists.next, ft.files, ft.fs.inodes
      ensures Valid() && procs.Abs() == Step(old(procs.Abs()), ForkCall)
      ensures r == -1 <==> NoRoom(old(procs.Table()))
      ensures r == -1 ==> procs.Abs() == old(procs.Abs())
      ensures r != -1 ==> r == old(procs.nextPid) >= 2 && procs.curr == old(procs.curr)
      ensures r != -1 ==> NewChild(old(procs.Table()), procs.Table(), procs.curr, r)
      ensures ft.Now() == old(ft.Now())
    {
      hide ProcTables.ProcTable.Wellformed, ProcTables.ProcTable.Table, ProcTables.ProcTable.Sems,
        OpenFiles.FileTable.Valid, Cwds, Fds, Marked, OpenFiles.FileTable.Now, Inv, Tidy, FdCounts, Procs.Fork, Filed,
        Filing, Apart;
      ghost var a := ForkMeans(procs.Abs());
      CurrFacts(procs.Abs());
      hide Core, Shape;
      r := CopyProcess(a);
    }

    // sys_fork, when entry a is the first one unused.
    method CopyProcess(ghost first: nat) returns (r: int)
      requires Valid() && Enabled(procs.Abs(), ForkCall) && first == FirstUnused(procs.Table(), 1)
      modifies procs`nextPid, procs.pcb, procs.userSem, procs.lists.prev, procs.lists.next, ft.files, ft.fs.inodes
      ensures Valid() && procs.Abs() == Procs.Fork(old(procs.Abs()))
      ensures r == if first == PROC_NUM then -1 else old(procs.nextPid)
      ensures ft.Now() == old(ft.Now())
    {
      hide ProcTables.ProcTable.Wellformed, ProcTables.ProcTable.Table, ProcTables.ProcTable.Sems,
        OpenFiles.FileTable.Valid, Cwds, Fds, Marked, OpenFiles.FileTable.Now, Inv, Tidy, FdCounts, Procs.Fork, Filed,
        Filing, Allocated, Copied, Adopted;
      ghost var s := procs.Abs();
      StepInv(s, ForkCall);
      var a := Spawn();
      if a == PROC_NUM {
        ForkFails(s);
        return -1;
      }
      CopyFacts(s, a);
      ForkParts(s);
      r := Adopt(a);
    }

    // proc_alloc and the first part of proc_copycurr.
    method Spawn() returns (a: nat)
      requires Apart() && procs.Wellformed() && Inv(procs.Abs()) && Tidy(procs.Table()) && Filing(procs.Table())
      modifies procs`nextPid, procs.pcb, procs.userSem, procs.lists.prev, procs.lists.next
      ensures procs.Wellformed() && Filing(procs.Table()) && a == FirstUnused(old(procs.Table()), 1)
      ensures a == PROC_NUM ==> procs.Abs() == old(procs.Abs())
      ensures a < PROC_NUM ==> procs.Abs() == Spawned(old(procs.Abs()), a)
    {
      hide ProcTables.ProcTable.Wellformed, ProcTables.ProcTable.Table, ProcTables.ProcTable.Sems,
        OpenFiles.FileTable.Valid, Cwds, Fds, Marked, OpenFiles.FileTable.Now, Inv, Tidy, FdCounts, Filing, Allocated,
        Copied;
      ghost var s := procs.Abs();
      CurrFacts(s);
      a := procs.ProcAlloc();
      if a < PROC_NUM {
        AllocFacts(s, a);
        RefsFiling(s.pcb, procs.Table());
        procs.ProcIs(procs.curr);
        procs.ProcIs(a);
        procs.ProcCopycurr(a);
        CopyFacts(s, a);
        RefsFiling(Allocated(s, a).pcb, procs.Table());
      }
    }

    // The rest of sys_fork: the child inherits directory and descriptors, and is ready to run.
    method Adopt(a: nat) returns (pid: int)
      requires Apart() && procs.Wellformed() && Filing(procs.Table()) && a < PROC_NUM && a != procs.curr
      requires procs.Table()[procs.curr].cwd >= 0 && procs.Table()[a].cwd == NULL
        && procs.Table()[a].files == NoSlots(MAX_UFILE)
      modifies procs.pcb, ft.files, ft.fs.inodes
      ensures procs.Wellformed() && Filing(procs.Table()) && procs.Sems() == old(procs.Sems())
      ensures procs.Table() == Adopted(old(procs.Table()), procs.curr, a) && pid == old(procs.Table())[a].pid
      ensures ft.Now() == old(ft.Now())
    {
      hide ProcTables.ProcTable.Wellformed, ProcTables.ProcTable.Table, ProcTables.ProcTable.Sems,
        OpenFiles.FileTable.Valid, Cwds, Fds, Marked, OpenFiles.FileTable.Now, Inv, FdCounts, Filing;
      CopyFiles(a);
      ghost var t := procs.Table();
      procs.ProcAddready(a);
      RefsFiling(t, procs.Table());
      procs.ProcIs(a);
      pid := procs.pcb[a].pid;
    }

    // Descriptor i of the running process is closed.
    method DropFile(i: nat)
      requires Apart() && procs.Wellformed() && Filing(procs.Table()) && i < MAX_UFILE
      modifies procs.pcb, ft.files, ft.fs`own, ft.fs.inodes, ft.fs.disk.cache, ft.fs.disk.sectors
      ensures procs.Wellformed() && Filing(procs.Table()) && procs.Sems() == old(procs.Sems())
      ensures procs.Table() == WithFile(old(procs.Table()), procs.curr, i, NULL)
      ensures OnlyMarkedGo(old(ft.Now()), ft.Now(), old(Marked(ft.fs.inodes[..])))
      ensures Marked(ft.fs.inodes[..]) <= old(Marked(ft.fs.inodes[..]))
    {
      hide FdCounts, WithFile, ProcTables.ProcTable.Wellformed, ProcTables.ProcTable.Table, ProcTables.ProcTable.Sems,
        OpenFiles.FileTable.Valid, Cwds, Fds, Marked, OpenFiles.FileTable.Now, Inv;
      ghost var t, c := procs.Table(), procs.curr;
      procs.ProcIs(procs.curr);
      ft.NowIs(Cwds(t));
      FdLen(t, ft.files[..], c);
      var k := procs.pcb[procs.curr].files[i];
      if k != NULL {
        FdLess(t, ft.files[..], c, i);
        ft.Fclose(k, Cwds(t));
        procs.SetFile(procs.curr, i, NULL);
        WithSameCwds(t, c, i, NULL);
      } else {
        WithSame(t, c, i);
      }
    }

    method VacateOne(i: nat, ghost t: seq<Proc>, ghost slots: seq<int>, ghost f: seq<File>, ghost m: set<nat>)
      requires Apart() && procs.Wellformed() && Filing(procs.Table()) && i < MAX_UFILE
      requires Vacating(procs.Table(), t, procs.curr, i, slots)
      requires OnlyMarkedGo(f, ft.Now(), m) && Marked(ft.fs.inodes[..]) <= m
      modifies procs.pcb, ft.files, ft.fs`own, ft.fs.inodes, ft.fs.disk.cache, ft.fs.disk.sectors
      ensures procs.Wellformed() && Filing(procs.Table()) && procs.Sems() == old(procs.Sems())
      ensures OnlyMarkedGo(f, ft.Now(), m) && Marked(ft.fs.inodes[..]) <= m
      ensures Vacating(procs.Table(), t, procs.curr, i + 1, slots)
    {
      hide ProcTables.ProcTable.Wellformed, ProcTables.ProcTable.Table, ProcTables.ProcTable.Sems,
        OpenFiles.FileTable.Valid, FdCounts, Cwds, Fds, Marked, OpenFiles.FileTable.Now, NoSlots, Filing;
      SlotCleared(slots, procs.Table()[procs.curr].files, i);
      DropFile(i);
    }

    // What an exiting process still holds: its descriptors and its directory. Unlinked files that
    // it was the last to have open go; no other file changes.
    method Vacate()
      requires Apart() && procs.Wellformed() && Filing(procs.Table()) && procs.Table()[procs.curr].cwd >= 0
      modifies procs.pcb, ft.files, ft.fs`own, ft.fs.inodes, ft.fs.disk.cache, ft.fs.disk.sectors
      ensures procs.Wellformed() && Filing(procs.Table()) && procs.Sems() == old(procs.Sems())
      ensures procs.Table() == Vacated(old(procs.Table()), procs.curr)
      ensures OnlyMarkedGo(old(ft.Now()), ft.Now(), old(Marked(ft.fs.inodes[..])))
    {
      hide ProcTables.ProcTable.Wellformed, ProcTables.ProcTable.Table, ProcTables.ProcTable.Sems,
        OpenFiles.FileTable.Valid, Cwds, Fds, Marked, OpenFiles.FileTable.Now, Inv, FdCounts;
      ghost var t, c, f, m := procs.Table(), procs.curr, ft.Now(), Marked(ft.fs.inodes[..]);
      ghost var slots := t[c].files;
      FdLen(t, ft.files[..], c);
      for i := 0 to MAX_UFILE
        invariant procs.Wellformed() && Filing(procs.Table()) && procs.Sems() == old(procs.Sems())
        invariant OnlyMarkedGo(f, ft.Now(), m) && Marked(ft.fs.inodes[..]) <= m
        invariant Vacating(procs.Table(), t, c, i, slots)
      {
        hide Filing, Vacating;
        VacateOne(i, t, slots, f, m);
      }
      assert procs.Table()[c].files == NoSlots(MAX_UFILE);
      DropCwd();
    }

    // The running process leaves its directory.
    method DropCwd()
      requires Apart() && procs.Wellformed() && Filing(procs.Table()) && procs.Table()[procs.curr].cwd >= 0
      modifies procs.pcb, ft.fs`own, ft.fs.inodes, ft.fs.disk.cache, ft.fs.disk.sectors
      ensures procs.Wellformed() && Filing(procs.Table()) && procs.Sems() == old(procs.Sems())
      ensures procs.Table() == old(procs.Table())[procs.curr := old(procs.Table())[procs.curr].(cwd := NULL)]
      ensures ft.Now() == old(ft.Now())
    {
      hide ProcTables.ProcTable.Wellformed, ProcTables.ProcTable.Table, ProcTables.ProcTable.Sems,
        OpenFiles.FileTable.Valid, Cwds, Fds, Marked, OpenFiles.FileTable.Now, Inv, FdCounts;
      ghost var t := procs.Table();
      procs.ProcIs(procs.curr);
      CwdLoss(t, procs.curr);
      ft.CloseCwd(procs.pcb[procs.curr].cwd, Cwds(t));
      procs.SetCwd(procs.curr, NULL);
      FdSame(t, procs.Table(), ft.files[..]);
    }

    method SysExit(code: int)
      requires Valid() && Enabled(procs.Abs(), ExitCall(code))
      modifies procs`curr, procs.pcb, procs.userSem, procs.lists`lists, procs.lists`home, procs.lists.prev,
        procs.lists.next
      modifies ft.files, ft.fs`own, ft.fs.inodes, ft.fs.disk.cache, ft.fs.disk.sectors
      ensures Valid() && procs.Abs() == Step(old(procs.Abs()), ExitCall(code))
      ensures OnlyMarkedGo(old(ft.Now()), ft.Now(), old(Marked(ft.fs.inodes[..])))
    {
      hide ProcTables.ProcTable.Wellformed, ProcTables.ProcTable.Table, ProcTables.ProcTable.Sems,
        OpenFiles.FileTable.Valid, Cwds, Fds, Marked, OpenFiles.FileTable.Now, Inv, Tidy, FdCounts, Procs.Exit, Filing,
        Dying, Vacated, OnlyMarkedGo, Procs.Schedule, Enabled, Step;
      ghost var s := procs.Abs();
      DyingFacts(s, code);
      Die(code);
      Vacate();
      Depart();
    }

    // proc_makezombie up to the files
    method Die(code: int)
      requires Apart() && procs.Wellformed() && Inv(procs.Abs()) && Tidy(procs.Table()) && Filing(procs.Table())
      requires Enabled(procs.Abs(), ExitCall(code))
      modifies procs.pcb, procs.userSem, procs.lists`lists, procs.lists`home, procs.lists.prev, procs.lists.next
      ensures procs.Wellformed() && Filing(procs.Table()) && procs.Abs() == Dying(old(procs.Abs()), code)
    {
      hide ProcTables.ProcTable.Wellformed, ProcTables.ProcTable.Table, ProcTables.ProcTable.Sems,
        OpenFiles.FileTable.Valid, Cwds, Fds, Marked, OpenFiles.FileTable.Now, Inv, Tidy, FdCounts, Procs.Exit, Filing,
        Dying, Vacated, OnlyMarkedGo;
      ghost var s := procs.Abs();
      DyingFacts(s, code);
      procs.ProcIs(procs.curr);
      procs.ProcMakezombie(code);
      RefsFiling(s.pcb, procs.Table());
    }

    // int $0x81 of a zombie
    method Depart()
      requires Apart() && procs.Wellformed() && Filing(procs.Table()) && procs.Table()[0].status == Ready
      modifies procs`curr, procs.pcb
      ensures procs.Wellformed() && Filing(procs.Table()) && procs.Abs() == Procs.Schedule(old(procs.Abs()))
    {
      hide ProcTables.ProcTable.Wellformed, ProcTables.ProcTable.Table, ProcTables.ProcTable.Sems,
        OpenFiles.FileTable.Valid, Cwds, Fds, Marked, OpenFiles.FileTable.Now, Inv, Tidy, FdCounts, Procs.Exit, Filing,
        Dying, Vacated, OnlyMarkedGo;
      ghost var s := procs.Abs();
      ScheduleFiles(s);
      procs.ProcIs(0);
      procs.Schedule();
      RefsFiling(s.pcb, procs.Table());
    }

    // ---- files ----

    // A user process is running, and makes a call about its files.
    ghost predicate Asking()
      reads this, procs, procs.pcb, procs.userSem, procs.lists, procs.lists.prev, procs.lists.next, procs.lists.item
      reads ft, ft.files, ft.fs, ft.fs.disk, ft.fs.disk.sectors, ft.fs.disk.cache, ft.fs.inodes
    {
      Valid() && procs.curr != 0 && procs.Table()[procs.curr].kont == User
    }

    // proc_allocfile
    method ProcAllocfile() returns (fd: nat)
      requires procs.Wellformed() && |procs.Table()[procs.curr].files| == MAX_UFILE
      ensures fd == FreeSlot(procs.Table()[procs.curr].files, 0)
    {
      hide ProcTables.ProcTable.Table;
      procs.ProcIs(procs.curr);
      for i := 0 to MAX_UFILE
        invariant forall k | 0 <= k < i :: procs.pcb[procs.curr].files[k] != NULL
      {
        if procs.pcb[procs.curr].files[i] == NULL { return i; }
      }
      return MAX_UFILE;
    }

    // The inode number of the working directory.
    ghost function Here(): nat
      reads procs, procs.pcb, procs.userSem, procs.lists, procs.lists.prev, procs.lists.next, procs.lists.item,
        ft.fs.inodes
    {
      var cwd := procs.Table()[procs.curr].cwd;
      if 0 <= cwd < ft.fs.inodes.Length then ft.fs.inodes[cwd].no else 0
    }

    // The running process stands in a directory that is open.
    lemma StandsHere()
      requires Valid()
      ensures var cwd, cwds := procs.Table()[procs.curr].cwd, Cwds(procs.Table());
        cwd >= 0 && cwd as nat in cwds && Namei.Ready(ft.fs, cwd) && ft.Valid(cwds) && procs.Wellformed()
          && cwd < ft.fs.inodes.Length
        && Here() == ft.fs.inodes[cwd].no && cwd == procs.pcb[procs.curr].cwd && FdCounts(procs.Table(), ft.files[..])
      ensures |procs.Table()[procs.curr].files| == |procs.pcb[procs.curr].files| == MAX_UFILE
      ensures procs.pcb.Length == PROC_NUM && ft.Now() == ft.fs.F() && |ft.Now()| == INUM
    {
      hide ProcTables.ProcTable.Wellformed, ProcTables.ProcTable.Table, ProcTables.ProcTable.Sems,
        OpenFiles.FileTable.Valid, Cwds, Fds, Marked, OpenFiles.FileTable.Now, Inv, FdCounts;
      var t := procs.Table();
      CurrFacts(procs.Abs());
      procs.ProcIs(procs.curr);
      FdLen(t, ft.files[..], procs.curr);
      CwdLoss(t, procs.curr);
      ft.NowIs(Cwds(t));
      ft.Stands(t[procs.curr].cwd, Cwds(t));
    }

    method SysOpen(path: seq<byte>, mode: Mode) returns (r: Outcome<int>, ghost got: Option<nat>)
      requires Asking() && 0 !in path
      modifies procs.pcb, ft.files, ft.fs`own, ft.fs.inodes, ft.fs.disk.cache, ft.fs.disk.sectors
      ensures r.Abort? ==> Exhausted(ft.fs, old(ft.Now())) || exists i: nat :: OddAt(old(ft.Now()), i)
      ensures r.Done? ==> Valid()
      ensures r.Done? ==> OpenDone(old(procs.Abs()), procs.Abs(), old(ft.files[..]), ft.files[..], old(ft.Now()),
        ft.Now(), path, old(Here()), mode,
        ft.fs.inodes[..], got, r.value)
    {
      hide Exhausted, OpenFiles.FileTable.NoBlock, ProcTables.ProcTable.Wellformed, ProcTables.ProcTable.Table,
        ProcTables.ProcTable.Sems, OpenFiles.FileTable.Valid, Cwds, Fds, Marked, OpenFiles.FileTable.Now, Inv, FdCounts,
        Tidy, Opening, AllTaken, TableEntry, Inodes.Fs.Valid, Namei.Ready, Inodes.Fs.F, Inodes.Fs.V;
      StandsHere();
      ghost var s, t, before := procs.Abs(), procs.Table(), ft.files[..];
      got := None;
      var fd := ProcAllocfile();
      if fd == MAX_UFILE { return Done(-1), None; }
      var k := ft.Fopen(path, mode, procs.pcb[procs.curr].cwd, Cwds(t));
      if k.Abort? { return Abort, None; }
      ft.NowIs(Cwds(t));
      got := k.value;
      if k.value.None? {
        FdSameRefs(t, before, ft.files[..]);
        return Done(-1), None;
      }
      FdOpened(t, before, ft.files[..], procs.curr, fd, got.value, mode);
      procs.SetFile(procs.curr, fd, k.value.value);
      WithSameCwds(t, procs.curr, fd, got.value);
      WithFileKeeps(s, fd, got.value);
      return Done(fd), got;
    }

    method SysClose(fd: int) returns (r: int)
      requires Asking()
      modifies procs.pcb, ft.files, ft.fs`own, ft.fs.inodes, ft.fs.disk.cache, ft.fs.disk.sectors
      ensures Valid() && r == if FileOf(Curr(old(procs.Abs())), fd) == NULL then -1 else 0
      ensures r == -1 ==> procs.Abs() == old(procs.Abs()) && ft.Now() == old(ft.Now())
      ensures r == 0 ==> procs.Abs() == Refiled(old(procs.Abs()), fd, NULL)
      ensures OnlyMarkedGo(old(ft.Now()), ft.Now(), old(Marked(ft.fs.inodes[..])))
    {
      hide Exhausted, OpenFiles.FileTable.NoBlock, WithFile, Inodes.Fs.Valid, Inodes.Fs.F, Inodes.Fs.V, Namei.Ready,
        ProcTables.ProcTable.Wellformed, ProcTables.ProcTable.Table, ProcTables.ProcTable.Sems,
        OpenFiles.FileTable.Valid, Cwds, Fds, Marked, OpenFiles.FileTable.Now, Inv, FdCounts, Tidy, OnlyMarkedGo;
      ghost var s := procs.Abs();
      StandsHere();
      NothingGoes(ft.Now(), Marked(ft.fs.inodes[..]));
      var k := ProcGetfile(fd);
      if k == NULL { return -1; }
      WithFileKeeps(s, fd, NULL);
      DropFile(fd);
      return 0;
    }

    // proc_getfile
    method ProcGetfile(fd: int) returns (k: int)
      requires procs.Wellformed() && |procs.Table()[procs.curr].files| == MAX_UFILE
      ensures k == FileOf(procs.Table()[procs.curr], fd)
    {
      hide Exhausted, OpenFiles.FileTable.NoBlock, ProcTables.ProcTable.Table;
      procs.ProcIs(procs.curr);
      return if fd < 0 || fd >= MAX_UFILE then NULL else procs.pcb[procs.curr].files[fd];
    }

    method SysDup(fd: int) returns (r: int)
      requires Asking()
      modifies procs.pcb, ft.files
      ensures Valid() && ft.Now() == old(ft.Now())
      ensures var c := Curr(old(procs.Abs()));
        r == if FileOf(c, fd) == NULL || FreeSlot(c.files, 0) == MAX_UFILE then -1 else FreeSlot(c.files, 0)
      ensures procs.Abs() == if r == -1 then old(procs.Abs())
        else Refiled(old(procs.Abs()), r, FileOf(Curr(old(procs.Abs())), fd))
    {
      hide Exhausted, OpenFiles.FileTable.NoBlock, WithFile, Inodes.Fs.Valid, Inodes.Fs.F, Inodes.Fs.V, Namei.Ready,
        ProcTables.ProcTable.Wellformed, ProcTables.ProcTable.Table, ProcTables.ProcTable.Sems,
        OpenFiles.FileTable.Valid, Cwds, Fds, Marked, OpenFiles.FileTable.Now, Inv, FdCounts, Tidy, FreeSlot, FdsOk;
      ghost var s, t := procs.Abs(), procs.Table();
      StandsHere();
      var k := ProcGetfile(fd);
      if k == NULL { return -1; }
      var new_fd := ProcAllocfile();
      if new_fd == MAX_UFILE { return -1; }
      ft.NowIs(Cwds(t));
      FdHeld(t, ft.files[..], procs.curr, fd);
      WithFileKeeps(s, new_fd, k);
      Share(procs.curr, new_fd, k);
      return new_fd;
    }

    method SysChdir(path: seq<byte>) returns (r: Outcome<int>)
      requires Asking() && 0 !in path
      modifies procs.pcb, ft.fs`own, ft.fs.inodes, ft.fs.disk.cache, ft.fs.disk.sectors
      ensures r.Abort? ==> Exhausted(ft.fs, old(ft.Now()))
      ensures r.Done? ==> Valid() && ft.Now() == old(ft.Now())
      ensures r.Done? ==> r.value == if IsDirectory(ft.Now(), Target(old(ft.Now()), path, old(Here()))) then 0 else -1
      ensures r == Done(-1) ==> procs.Abs() == old(procs.Abs())
      ensures r == Done(0) ==> Here() == Target(old(ft.Now()), path, old(Here()))
      ensures r == Done(0) ==> procs.Abs() == Moved(old(procs.Abs()), procs.Table()[procs.curr].cwd)
    {
      hide Exhausted, OpenFiles.FileTable.NoBlock, ProcTables.ProcTable.Wellformed, ProcTables.ProcTable.Table,
        ProcTables.ProcTable.Sems, OpenFiles.FileTable.Valid, Cwds, Fds, Marked, OpenFiles.FileTable.Now, Inv, FdCounts,
        Tidy, Namei.Ready, Target, IsDirectory, Inodes.Fs.Valid, Inodes.Fs.F, Inodes.Fs.V;
      ghost var s, t := procs.Abs(), procs.Table();
      StandsHere();
      CwdLoss(t, procs.curr);
      var to := ft.Chdir(path, procs.pcb[procs.curr].cwd, Cwds(t));
      if to.Abort? { return Abort; }
      if to.value.None? {
        ft.NowIs(Cwds(t));
        return Done(-1);
      }
      CwdMove(t, procs.curr, to.value.value);
      ft.NowIs(Cwds(t) - multiset{t[procs.curr].cwd as nat} + multiset{to.value.value});
      MovedKeeps(s, to.value.value);
      procs.SetCwd(procs.curr, to.value.value);
      FdSame(t, procs.Table(), ft.files[..]);
      return Done(0);
    }

    method SysRead(fd: int, size: u32) returns (r: Outcome<Reading>)
      requires Asking()
      modifies ft.files, ft.fs`own, ft.fs.inodes, ft.fs.disk.cache, ft.fs.disk.sectors
      ensures r.Abort? ==>
        ft.NoBlock() || OffsetOf(old(ft.files[..]), FileOf(old(procs.Table()[procs.curr]), fd)) + size >= MAX_FILE
      ensures r.Done? ==> Valid() && procs.Abs() == old(procs.Abs()) && ft.Now() == old(ft.Now())
      ensures r.Done? ==> var k := FileOf(old(procs.Table()[procs.curr]), fd);
        if k < 0 then r.value == NotRead && ft.files[..] == old(ft.files[..])
        else Reads(ft.Now(), old(ft.fs.inodes[..]), old(ft.files[..]), ft.files[..], k, size, r.value)
    {
      hide Exhausted, OpenFiles.FileTable.NoBlock, ProcTables.ProcTable.Wellformed, ProcTables.ProcTable.Table,
        ProcTables.ProcTable.Sems, OpenFiles.FileTable.Valid, Cwds, Fds, Marked, OpenFiles.FileTable.Now, Inv, FdCounts,
        Tidy, WithFile, Inodes.Fs.Valid, Inodes.Fs.F, Inodes.Fs.V, Namei.Ready, Reads, Writes, SeekTo;
      ghost var t := procs.Table();
      StandsHere();
      ft.NowIs(Cwds(t));
      var k := ProcGetfile(fd);
      if k == NULL { return Done(NotRead); }
      FdHeld(t, ft.files[..], procs.curr, fd);
      ghost var before := ft.files[..];
      r := ft.Fread(k, size, Cwds(t));
      if r.Done? {
        ft.NowIs(Cwds(t));
        ReadsRefs(ft.Now(), old(ft.fs.inodes[..]), before, ft.files[..], k, size, r.value);
        FdSameRefs(t, before, ft.files[..]);
      }
    }

    method SysWrite(fd: int, buf: seq<byte>) returns (r: Outcome<Writing>)
      requires Asking()
      modifies ft.files, ft.fs`own, ft.fs.inodes, ft.fs.disk.cache, ft.fs.disk.sectors
      ensures r.Abort? ==>
        ft.NoBlock() || OffsetOf(old(ft.files[..]), FileOf(old(procs.Table()[procs.curr]), fd)) + |buf| > MAX_FILE
      ensures r.Done? ==> Valid() && procs.Abs() == old(procs.Abs())
      ensures r.Done? ==> var k := FileOf(old(procs.Table()[procs.curr]), fd);
        if k < 0 then r.value == Written(-1) && ft.Now() == old(ft.Now()) && ft.files[..] == old(ft.files[..])
        else Writes(old(ft.Now()), ft.Now(), old(ft.fs.inodes[..]), old(ft.files[..]), ft.files[..], k, buf, r.value)
    {
      hide Exhausted, OpenFiles.FileTable.NoBlock, ProcTables.ProcTable.Wellformed, ProcTables.ProcTable.Table,
        ProcTables.ProcTable.Sems, OpenFiles.FileTable.Valid, Cwds, Fds, Marked, OpenFiles.FileTable.Now, Inv, FdCounts,
        Tidy, WithFile, Inodes.Fs.Valid, Inodes.Fs.F, Inodes.Fs.V, Namei.Ready, Reads, Writes, SeekTo;
      ghost var t := procs.Table();
      StandsHere();
      ft.NowIs(Cwds(t));
      var k := ProcGetfile(fd);
      if k == NULL { return Done(Written(-1)); }
      FdHeld(t, ft.files[..], procs.curr, fd);
      ghost var before, f := ft.files[..], ft.Now();
      r := ft.Fwrite(k, buf, Cwds(t));
      if r.Done? {
        ft.NowIs(Cwds(t));
        WritesRefs(f, ft.Now(), old(ft.fs.inodes[..]), before, ft.files[..], k, buf, r.value);
        FdSameRefs(t, before, ft.files[..]);
      }
    }

    method SysLseek(fd: int, off: u32, whence: Whence) returns (r: u32)
      requires Asking()
      modifies ft.files
      ensures Valid() && procs.Abs() == old(procs.Abs()) && ft.Now() == old(ft.Now())
      ensures var k := FileOf(old(procs.Table()[procs.curr]), fd);
        if k < 0 then r == 0xFFFF_FFFF && ft.files[..] == old(ft.files[..])
        else Seeks(ft.Now(), ft.fs.inodes[..], old(ft.files[..]), ft.files[..], k, off, whence, r)
    {
      hide Exhausted, OpenFiles.FileTable.NoBlock, ProcTables.ProcTable.Wellformed, ProcTables.ProcTable.Table,
        ProcTables.ProcTable.Sems, OpenFiles.FileTable.Valid, Cwds, Fds, Marked, OpenFiles.FileTable.Now, Inv, FdCounts,
        Tidy, WithFile, Inodes.Fs.Valid, Inodes.Fs.F, Inodes.Fs.V, Namei.Ready, Reads, Writes, SeekTo;
      ghost var t := procs.Table();
      StandsHere();
      ft.NowIs(Cwds(t));
      var k := ProcGetfile(fd);
      if k == NULL { return 0xFFFF_FFFF; }
      FdHeld(t, ft.files[..], procs.curr, fd);
      ghost var before := ft.files[..];
      r := ft.Fseek(k, off, whence, Cwds(t));
      ft.NowIs(Cwds(t));
      FdSameRefs(t, before, ft.files[..]);
    }

    // load_elf reads a file for exec, and for the first shell while the idle process runs.
    method LoadFile(path: seq<byte>, off: u32, size: u32) returns (r: Outcome<Option<seq<byte>>>)
      requires Valid() && 0 !in path
      modifies ft.fs`own, ft.fs.inodes, ft.fs.disk.cache, ft.fs.disk.sectors
      ensures r.Done? ==> Valid() && procs.Abs() == old(procs.Abs()) && ft.Now() == old(ft.Now())
      ensures r.Done? ==> r.value == Loaded(old(ft.Now()), Target(old(ft.Now()), path, old(Here())), off, size)
      ensures r.Abort? && !Exhausted(ft.fs, old(ft.Now())) ==>
        var got := Loaded(old(ft.Now()), Target(old(ft.Now()), path, old(Here())), off, size);
        got.Some? && off + |got.value| >= MAX_FILE
    {
      hide Exhausted, OpenFiles.FileTable.NoBlock, ProcTables.ProcTable.Wellformed, ProcTables.ProcTable.Table,
        ProcTables.ProcTable.Sems, OpenFiles.FileTable.Valid, Cwds, Fds, Marked, OpenFiles.FileTable.Now, Inv, FdCounts,
        Tidy, WithFile, Inodes.Fs.Valid, Inodes.Fs.F, Inodes.Fs.V, Namei.Ready, Loaded, Target;
      ghost var t := procs.Table();
      StandsHere();
      ft.NowIs(Cwds(t));
      r := Loader.LoadFile(ft, path, off, size, procs.pcb[procs.curr].cwd, Cwds(t));
      if r.Done? { ft.NowIs(Cwds(t)); }
    }

    // unlink keeps everything in balance exactly unless the path names a directory that is open, be it
    // as some process's working directory.
    method SysUnlink(path: seq<byte>) returns (r: Outcome<int>, ghost j: int)
      requires Asking() && 0 !in path
      modifies ft.fs`own, ft.fs.inodes, ft.fs.disk.cache, ft.fs.disk.sectors
      ensures r.Abort? ==> Exhausted(ft.fs, old(ft.Now()))
      ensures r.Done? ==> procs.Abs() == old(procs.Abs()) && ft.fs.Valid() && |old(ft.Now())| == INUM
      ensures r.Done? ==> r.value == if Refuses(old(ft.Now()), path, old(Here())) then -1 else 0
      ensures r == Done(-1) ==> Valid() && ft.Now() == old(ft.Now())
      ensures r == Done(0) ==> (Valid() <==> !OpenDirNamed(old(ft.Now()), old(ft.fs.inodes[..]), path, old(Here())))
      ensures r == Done(0) ==>
        Unlinks(old(ft.Now()), ft.fs.F(), old(ft.fs.inodes[..]), ft.fs.inodes[..], path, old(Here()), j)
    {
      hide Exhausted, OpenFiles.FileTable.NoBlock, ProcTables.ProcTable.Wellformed, ProcTables.ProcTable.Table,
        ProcTables.ProcTable.Sems, OpenFiles.FileTable.Valid, Cwds, Fds, Marked, OpenFiles.FileTable.Now, Inv, FdCounts,
        Tidy, Inodes.Fs.Valid, Inodes.Fs.F, Inodes.Fs.V, Namei.Ready, Unlinks, OpenDirNamed, Refuses;
      ghost var t := procs.Table();
      StandsHere();
      ft.NowIs(Cwds(t));
      r, j := ft.Unlink(path, procs.pcb[procs.curr].cwd, Cwds(t));
      if r == Done(-1) { ft.NowIs(Cwds(t)); }
    }

    // ---- calls that do not touch files: every book stays as it is ----

    method SysYield()
      requires Valid() && Enabled(procs.Abs(), Yield)
      modifies procs`curr, procs.pcb
      ensures Valid() && procs.Abs() == Step(old(procs.Abs()), Yield) && ft.Now() == old(ft.Now())
    {
      hide Exhausted, OpenFiles.FileTable.NoBlock, ProcTables.ProcTable.Wellformed, ProcTables.ProcTable.Table,
        ProcTables.ProcTable.Sems, OpenFiles.FileTable.Valid, Cwds, Fds, Marked, OpenFiles.FileTable.Now, Inv, FdCounts,
        Tidy, Step, Filed, WaitGives, Switches;
      ghost var s := procs.Abs();
      StepFiled(s, Yield);
      FiledKeeps(s.pcb, Step(s, Yield).pcb, ft.files[..]);
      procs.SysYield();
    }

    method SysWait() returns (r: Ret, code: int)
      requires Valid() && Enabled(procs.Abs(), WaitCall)
      modifies procs`curr, procs.pcb, procs.userSem, procs.lists`lists, procs.lists`home, procs.lists.prev,
        procs.lists.next, procs.lists.item
      ensures Valid() && procs.Abs() == Step(old(procs.Abs()), WaitCall) && ft.Now() == old(ft.Now())
      ensures WaitGives(old(procs.Abs()), WaitCall, r, code)
    {
      hide Exhausted, OpenFiles.FileTable.NoBlock, ProcTables.ProcTable.Wellformed, ProcTables.ProcTable.Table,
        ProcTables.ProcTable.Sems, OpenFiles.FileTable.Valid, Cwds, Fds, Marked, OpenFiles.FileTable.Now, Inv, FdCounts,
        Tidy, Step, Filed, WaitGives, Switches;
      ghost var s := procs.Abs();
      StepFiled(s, WaitCall);
      FiledKeeps(s.pcb, Step(s, WaitCall).pcb, ft.files[..]);
      r, code := procs.SysWait();
    }

    method SysSemOpen(value: int) returns (r: int)
      requires Valid() && Enabled(procs.Abs(), SemOpenCall(value))
      modifies procs.pcb, procs.userSem, procs.lists.prev, procs.lists.next
      ensures Valid() && procs.Abs() == Step(old(procs.Abs()), SemOpenCall(value)) && ft.Now() == old(ft.Now())
      ensures var id := FreeSlot(Curr(old(procs.Abs())).usems, 0);
        r == if id == MAX_USEM || FreeSem(old(procs.Abs()).sems, 0) == SEM_NUM then -1 else id
    {
      hide Exhausted, OpenFiles.FileTable.NoBlock, ProcTables.ProcTable.Wellformed, ProcTables.ProcTable.Table,
        ProcTables.ProcTable.Sems, OpenFiles.FileTable.Valid, Cwds, Fds, Marked, OpenFiles.FileTable.Now, Inv, FdCounts,
        Tidy, Step, Filed, WaitGives, Switches;
      ghost var s := procs.Abs();
      StepFiled(s, SemOpenCall(value));
      FiledKeeps(s.pcb, Step(s, SemOpenCall(value)).pcb, ft.files[..]);
      r := procs.SysSemOpen(value);
    }

    method SysSemP(id: int) returns (r: Ret)
      requires Valid() && Enabled(procs.Abs(), SemPCall(id))
      modifies procs`curr, procs.pcb, procs.userSem, procs.lists`lists, procs.lists`home, procs.lists.prev,
        procs.lists.next, procs.lists.item
      ensures Valid() && procs.Abs() == Step(old(procs.Abs()), SemPCall(id)) && ft.Now() == old(ft.Now())
      ensures r == if UsemOf(Curr(old(procs.Abs())), id) == NULL then Returned(-1)
                   else if Switches(old(procs.Abs()), SemPCall(id)) then Away else Returned(0)
    {
      hide Exhausted, OpenFiles.FileTable.NoBlock, ProcTables.ProcTable.Wellformed, ProcTables.ProcTable.Table,
        ProcTables.ProcTable.Sems, OpenFiles.FileTable.Valid, Cwds, Fds, Marked, OpenFiles.FileTable.Now, Inv, FdCounts,
        Tidy, Step, Filed, WaitGives, Switches;
      ghost var s := procs.Abs();
      StepFiled(s, SemPCall(id));
      FiledKeeps(s.pcb, Step(s, SemPCall(id)).pcb, ft.files[..]);
      r := procs.SysSemP(id);
    }

    method SysSemV(id: int) returns (r: int)
      requires Valid() && Enabled(procs.Abs(), SemVCall(id))
      modifies procs.pcb, procs.userSem, procs.lists`lists, procs.lists`home, procs.lists.prev, procs.lists.next
      ensures Valid() && procs.Abs() == Step(old(procs.Abs()), SemVCall(id)) && ft.Now() == old(ft.Now())
      ensures r == if UsemOf(Curr(old(procs.Abs())), id) == NULL then -1 else 0
    {
      hide ProcTables.ProcTable.Wellformed, ProcTables.ProcTable.Table, ProcTables.ProcTable.Sems,
        OpenFiles.FileTable.Valid, Cwds, Fds, Marked, OpenFiles.FileTable.Now, Inv, FdCounts, Tidy, Step, Filed,
        WaitGives, Switches;
      ghost var s := procs.Abs();
      StepFiled(s, SemVCall(id));
      FiledKeeps(s.pcb, Step(s, SemVCall(id)).pcb, ft.files[..]);
      r := procs.SysSemV(id);
    }

    // The sem_p of getchar.
    method Getchar() returns (r: Ret)
      requires Valid() && Enabled(procs.Abs(), GetcharCall)
      modifies procs`curr, procs.pcb, procs.userSem, procs.lists`lists, procs.lists`home, procs.lists.prev,
        procs.lists.next, procs.lists.item
      ensures Valid() && procs.Abs() == Step(old(procs.Abs()), GetcharCall) && ft.Now() == old(ft.Now())
      ensures r == if Switches(old(procs.Abs()), GetcharCall) then Away else Returned(0)
    {
      hide Exhausted, OpenFiles.FileTable.NoBlock, ProcTables.ProcTable.Wellformed, ProcTables.ProcTable.Table,
        ProcTables.ProcTable.Sems, OpenFiles.FileTable.Valid, Cwds, Fds, Marked, OpenFiles.FileTable.Now, Inv, FdCounts,
        Tidy, Step, Filed, WaitGives, Switches;
      ghost var s := procs.Abs();
      StepFiled(s, GetcharCall);
      FiledKeeps(s.pcb, Step(s, GetcharCall).pcb, ft.files[..]);
      r := procs.Getchar();
    }

    // One sem_v of the serial interrupt.
    method Key()
      requires Valid() && Enabled(procs.Abs(), KeyCall)
      modifies procs.pcb, procs.userSem, procs.lists`lists, procs.lists`home, procs.lists.prev, procs.lists.next
      ensures Valid() && procs.Abs() == Step(old(procs.Abs()), KeyCall) && ft.Now() == old(ft.Now())
    {
      hide ProcTables.ProcTable.Wellformed, ProcTables.ProcTable.Table, ProcTables.ProcTable.Sems,
        OpenFiles.FileTable.Valid, Cwds, Fds, Marked, OpenFiles.FileTable.Now, Inv, FdCounts, Tidy, Step, Filed,
        WaitGives, Switches;
      ghost var s := procs.Abs();
      StepFiled(s, KeyCall);
      FiledKeeps(s.pcb, Step(s, KeyCall).pcb, ft.files[..]);
      procs.Key();
    }

    method SysSemClose(id: int) returns (r: int)
      requires Valid() && Enabled(procs.Abs(), SemCloseCall(id))
      modifies procs.pcb, procs.userSem
      ensures Valid() && procs.Abs() == Step(old(procs.Abs()), SemCloseCall(id)) && ft.Now() == old(ft.Now())
      ensures r == if UsemOf(Curr(old(procs.Abs())), id) == NULL then -1 else 0
    {
      hide ProcTables.ProcTable.Wellformed, ProcTables.ProcTable.Table, ProcTables.ProcTable.Sems,
        OpenFiles.FileTable.Valid, Cwds, Fds, Marked, OpenFiles.FileTable.Now, Inv, FdCounts, Tidy, Step, Filed,
        WaitGives, Switches;
      ghost var s := procs.Abs();
      StepFiled(s, SemCloseCall(id));
      FiledKeeps(s.pcb, Step(s, SemCloseCall(id)).pcb, ft.files[..]);
      r := procs.SysSemClose(id);
    }

    method Continue() returns (r: Ret, code: int)
      requires Valid() && Enabled(procs.Abs(), ResumeCall)
      modifies procs`curr, procs.pcb
      ensures Valid() && procs.Abs() == Step(old(procs.Abs()), ResumeCall) && ft.Now() == old(ft.Now())
      ensures Curr(old(procs.Abs())).kont.InSem? ==> r == Returned(0)
      ensures !Curr(old(procs.Abs())).kont.InSem? ==> WaitGives(old(procs.Abs()), ResumeCall, r, code)
    {
      hide ProcTables.ProcTable.Wellformed, ProcTables.ProcTable.Table, ProcTables.ProcTable.Sems,
        OpenFiles.FileTable.Valid, Cwds, Fds, Marked, OpenFiles.FileTable.Now, Inv, FdCounts, Tidy, Step, Filed,
        WaitGives, Switches;
      ghost var s := procs.Abs();
      StepFiled(s, ResumeCall);
      FiledKeeps(s.pcb, Step(s, ResumeCall).pcb, ft.files[..]);
      r, code := procs.Continue();
    }

    // Changes of the process table that leave descriptors and directories alone.
    lemma RefsFiling(t: seq<Proc>, t': seq<Proc>)
      requires Filing(t) && |t'| == |t| && forall i: nat | i < |t| :: t'[i].files == t[i].files && t'[i].cwd == t[i].cwd
      ensures Filing(t')
    {
      hide OpenFiles.FileTable.Valid, Fds, Cwds;
      BagsFiled(t, t');
    }
  }

  lemma ForkFails(s: State)
    requires s.curr < |s.pcb| && 1 <= |s.pcb| && FirstUnused(s.pcb, 1) == |s.pcb|
    ensures Procs.Fork(s) == s
  {}

  lemma AllocFacts(s: State, a: nat)
    requires Inv(s) && Tidy(s.pcb) && a < |s.pcb| && s.pcb[a].status == Unused
    ensures var t := Allocated(s, a);
      && a != s.curr && |t.pcb| == |s.pcb| && t.curr == s.curr && t.pcb[a].usems == NoSlots(MAX_USEM)
        && t.pcb[s.curr] == Curr(s)
      && forall i: nat | i < |s.pcb| :: t.pcb[i].files == s.pcb[i].files && t.pcb[i].cwd == s.pcb[i].cwd
  {
    hide Core;
  }

  lemma CopyFacts(s: State, a: nat)
    requires Inv(s) && Tidy(s.pcb) && a < |s.pcb| && s.pcb[a].status == Unused
    ensures Allocated(s, a).curr < |Allocated(s, a).pcb| && |Allocated(s, a).pcb| == |s.pcb|
    ensures var t := Copied(Allocated(s, a), a);
      && |t.pcb| == |s.pcb| && t.pcb[a].files == NoSlots(MAX_UFILE) && t.pcb[a].cwd == NULL && t.pcb[s.curr].cwd >= 0
      && forall i: nat | i < |s.pcb| ::
        t.pcb[i].files == Allocated(s, a).pcb[i].files && t.pcb[i].cwd == Allocated(s, a).pcb[i].cwd
  {
    hide Core, AddRefs;
  }

  function Spawned(s: State, a: nat): State {
    if a < |s.pcb| && s.curr < |s.pcb| then Copied(Allocated(s, a), a) else s
  }

  function Adopted(t: seq<Proc>, c: nat, a: nat): (t': seq<Proc>)
    requires c < |t| && a < |t|
  {
    t[a := t[a].(cwd := t[c].cwd, files := t[c].files, status := Ready)]
  }

  // proc_alloc, proc_copycurr and proc_addready make up the step.
  lemma ForkParts(s: State)
    requires Inv(s) && Tidy(s.pcb) && FirstUnused(s.pcb, 1) < |s.pcb|
    ensures var a := FirstUnused(s.pcb, 1);
      Allocated(s, a).curr < |Allocated(s, a).pcb| && |Allocated(s, a).pcb| == |s.pcb|
    ensures var a, c := FirstUnused(s.pcb, 1), Curr(s);
      var t := Copied(Allocated(s, a), a);
      a < |t.pcb| == |s.pcb| && Procs.Fork(s) == t.(pcb := Adopted(t.pcb, s.curr, a)) && t.pcb[a].pid == s.nextPid
    ensures Tidy(Procs.Fork(s).pcb)
  {
    hide Core, AddRefs;
  }

  function Vacated(t: seq<Proc>, c: nat): (t': seq<Proc>)
    requires c < |t|
    ensures |t'| == |t|
  {
    t[c := t[c].(files := NoSlots(MAX_UFILE), cwd := NULL)]
  }

  lemma DyingVacated(s: State, code: int)
    requires s.curr < |s.pcb|
    ensures |Dying(s, code).pcb| == |s.pcb| && Dying(s, code).curr == s.curr
      && Dying(s, code).pcb[s.curr].cwd == Curr(s).cwd
    ensures Dying(s, code).pcb[s.curr].files == Curr(s).files
    ensures ExitTable(s, code) == Vacated(Dying(s, code).pcb, s.curr)
    ensures Exit(s, code) == Procs.Schedule(Dying(s, code).(pcb := ExitTable(s, code)))
  {
    hide Procs.Schedule, DropRefs;
  }

  // What becomes of the others: parent and zombie semaphore only.
  lemma ExitedFiles(s: State, pcb': seq<Proc>, q: int)
    requires Inv(s) && s.curr < |s.pcb| && Exited(s.pcb, pcb', s.curr, q)
    ensures forall i: nat | i < |s.pcb| && i != s.curr ::
      pcb'[i].files == s.pcb[i].files && pcb'[i].cwd == s.pcb[i].cwd && (Alive(pcb'[i]) <==> Alive(s.pcb[i]))
    ensures !Alive(pcb'[s.curr]) && pcb'[s.curr].cwd == NULL
  {
    hide Shape, Parents, ChildCounts, ZombieCounts, SemQueues, SemRefs;
    forall i: nat | i < |s.pcb| && i != s.curr
      ensures pcb'[i].files == s.pcb[i].files && pcb'[i].cwd == s.pcb[i].cwd && (Alive(pcb'[i]) <==> Alive(s.pcb[i]))
    {
      assert pcb'[i] == if i == q then Signalled(Bereft(s.pcb[i], s.curr)) else Bereft(s.pcb[i], s.curr);
    }
  }

  lemma ScheduleFiles(s: State)
    requires s.curr < |s.pcb|
    ensures var t := Procs.Schedule(s);
      |t.pcb| == |s.pcb| && forall i: nat | i < |s.pcb| ::
        t.pcb[i].files == s.pcb[i].files && t.pcb[i].cwd == s.pcb[i].cwd
  {}

  // sys_exit up to the schedule, and the schedule.
  lemma DyingFacts(s: State, code: int)
    requires Inv(s) && Tidy(s.pcb) && Enabled(s, ExitCall(code))
    ensures var t := Dying(s, code);
      && |t.pcb| == |s.pcb| == PROC_NUM && t.curr == s.curr && t.pcb[s.curr].cwd >= 0
      && (forall i: nat | i < |s.pcb| :: t.pcb[i].files == s.pcb[i].files && t.pcb[i].cwd == s.pcb[i].cwd)
    ensures var t := Dying(s, code);
      var u := t.(pcb := Vacated(t.pcb, s.curr));
      u.pcb[0].status == Ready && Exit(s, code) == Procs.Schedule(u)
    ensures Tidy(Exit(s, code).pcb) && Inv(Exit(s, code)) && Step(s, ExitCall(code)) == Exit(s, code)
  {
    ExitInv(s, code);
    hide Inv, ExitTable, Exit, Dying, Procs.Schedule, Core, Shape, Exited, Zombies;
    CurrFacts(s);
    CoreWhole(s.pcb, s.sems);
    hide Parents, ChildCounts, ZombieCounts, WaitQueues, Konts, SemQueues, SemRefs;
    ExitTableIs(s, code);
    DyingVacated(s, code);
    ExitedFiles(s, ExitTable(s, code), Curr(s).parent);
    ExitIdle(s, ExitTable(s, code), s.curr, Curr(s).parent);
    var t := Dying(s, code);
    forall i: nat | i < |s.pcb| ensures t.pcb[i].files == s.pcb[i].files && t.pcb[i].cwd == s.pcb[i].cwd {
      if i != s.curr { assert t.pcb[i] == ExitTable(s, code)[i]; }
    }
    FiledSchedule(t.(pcb := ExitTable(s, code)));
    VacatedTidy(s.pcb, ExitTable(s, code), Exit(s, code).pcb, s.curr);
  }

  lemma VacatedTidy(t: seq<Proc>, u: seq<Proc>, v: seq<Proc>, c: nat)
    requires Tidy(t) && |u| == |t| && c < |t| && Filed(u, v) && !Alive(u[c]) && u[c].files == NoSlots(MAX_UFILE)
      && u[c].cwd == NULL
    requires forall i: nat | i < |t| && i != c ::
      u[i].files == t[i].files && u[i].cwd == t[i].cwd && (Alive(u[i]) <==> Alive(t[i]))
    ensures Tidy(v)
  {}

  // What open did: all entries or descriptors in use, or refused, or a new descriptor on a new entry.
  ghost predicate OpenDone(s: State, s': State, files: seq<OpenFile>, files': seq<OpenFile>, f: seq<File>,
      f': seq<File>, path: seq<byte>, here: nat,
                           mode: Mode, t': seq<Inode>, got: Option<nat>, r: int) {
    && s.curr < |s.pcb| && |f| == INUM
    && var fds := Curr(s).files;
    var fd := FreeSlot(fds, 0);
    if fd == |fds| || AllTaken(files) then r == -1 && s' == s && f' == f
    else
      && Opening(f, f', path, here, mode, t', FileAt(files', got))
      && if got.None? then r == -1 && s' == s else r == fd && s' == s.(pcb := WithFile(s.pcb, s.curr, fd, got.value))
  }

  lemma FdSameRefs(t: seq<Proc>, files: seq<OpenFile>, files': seq<OpenFile>)
    requires FdCounts(t, files) && |files'| == |files| && forall k: nat | k < |files| :: files'[k].ref == files[k].ref
    ensures FdCounts(t, files')
  {
    hide Fds;
  }

  lemma FdOpened(t: seq<Proc>, files: seq<OpenFile>, files': seq<OpenFile>, p: nat, fd: nat, k: nat, mode: Mode)
    requires FdCounts(t, files) && TableEntry(files, files', k, mode) && p < |t| && fd < MAX_UFILE
      && SlotOf(t, p, fd) == NULL
    ensures FdCounts(WithFile(t, p, fd, k), files')
  {
    hide Fds;
    FdSet(t, files, files', p, fd, k);
  }

  lemma WithFileKeeps(s: State, fd: nat, k: int)
    requires Inv(s) && Tidy(s.pcb) && s.curr < |s.pcb| && fd < |Curr(s).files|
    ensures Inv(s.(pcb := WithFile(s.pcb, s.curr, fd, k))) && Tidy(WithFile(s.pcb, s.curr, fd, k))
  {
    hide Inv;
    CurrFacts(s);
    FilesInv(s, Curr(s).files[fd := k], Curr(s).cwd);
    assert WithFile(s.pcb, s.curr, fd, k)
      == s.pcb[s.curr := Curr(s).(files := Curr(s).files[fd := k], cwd := Curr(s).cwd)];
  }

  function FileOf(p: Proc, fd: int): int {
    if fd < 0 || fd >= MAX_UFILE || fd >= |p.files| then NULL else p.files[fd]
  }

  // The running process with descriptor fd on open file k.
  function Refiled(s: State, fd: int, k: int): State {
    if fd >= 0 then s.(pcb := WithFile(s.pcb, s.curr, fd, k)) else s
  }

  // The running process in another directory.
  function Moved(s: State, cwd: int): State {
    if s.curr < |s.pcb| then s.(pcb := s.pcb[s.curr := Curr(s).(cwd := cwd)]) else s
  }

  lemma NothingGoes(f: seq<File>, m: set<nat>)
    ensures OnlyMarkedGo(f, f, m)
  {}

  lemma CwdMove(t: seq<Proc>, p: nat, cwd: nat)
    requires p < |t| && t[p].cwd >= 0
    ensures Cwds(t[p := t[p].(cwd := cwd)]) == Cwds(t) - multiset{t[p].cwd as nat} + multiset{cwd}
  {
    CwdSet(t, p, cwd);
  }

  lemma MovedKeeps(s: State, cwd: nat)
    requires Inv(s) && Tidy(s.pcb)
    ensures Inv(Moved(s, cwd)) && Tidy(Moved(s, cwd).pcb)
  {
    hide Inv;
    CurrFacts(s);
    FilesInv(s, Curr(s).files, cwd);
    assert Moved(s, cwd).pcb == s.pcb[s.curr := Curr(s).(files := Curr(s).files, cwd := cwd)];
  }

  // Reading and writing leave every count of open files as it is.
  lemma ReadsRefs(f: seq<File>, t: seq<Inode>, files: seq<OpenFile>, files': seq<OpenFile>, k: nat, size: nat,
      r: Reading)
    requires Reads(f, t, files, files', k, size, r)
    ensures |files'| == |files| && forall i | 0 <= i < |files| :: files'[i] == files[i].(offset := files'[i].offset)
  {
    hide Window;
  }

  lemma WritesRefs(f: seq<File>, f': seq<File>, t: seq<Inode>, files: seq<OpenFile>, files': seq<OpenFile>, k: nat,
      buf: seq<byte>, r: Writing)
    requires Writes(f, f', t, files, files', k, buf, r)
    ensures |files'| == |files| && forall i | 0 <= i < |files| :: files'[i] == files[i].(offset := files'[i].offset)
  {
    hide Overlaid;
  }

  lemma InitFiles(cwd: nat, i: nat)
    requires i < PROC_NUM
    ensures Init(cwd).pcb[i].files == NoSlots(MAX_UFILE)
    ensures if i <= 1 then Alive(Init(cwd).pcb[i]) && Init(cwd).pcb[i].cwd == cwd
      else !Alive(Init(cwd).pcb[i]) && Init(cwd).pcb[i].cwd == NULL
    ensures |Init(cwd).pcb| == PROC_NUM
  {}

  lemma InitRefs(cwd: nat, files: seq<OpenFile>)
    requires |files| == TOTAL_FILE && forall k | 0 <= k < TOTAL_FILE :: files[k].ref == 0
    ensures Cwds(Init(cwd).pcb) == multiset{cwd, cwd}
    ensures FdCounts(Init(cwd).pcb, files) && Tidy(Init(cwd).pcb)
  {
    var t := Init(cwd).pcb;
    forall i: nat | i < PROC_NUM
      ensures t[i].files == NoSlots(MAX_UFILE) && Alive(t[i]) == (i <= 1) && t[i].cwd == if i <= 1 then cwd else NULL
    {
      InitFiles(cwd, i);
    }
    InitFiles(cwd, 0);
    hide Init;
    forall k: nat | k < TOTAL_FILE ensures Fds(t)[k] == 0 {
      NoSlotsEmpty(MAX_UFILE, k);
      hide NoSlots;
      BagNone(t, FdKey, k);
    }
    InitCwds(t, cwd);
    hide Fds, Cwds;
  }

  lemma InitCwds(t: seq<Proc>, cwd: nat)
    requires |t| == PROC_NUM && forall i: nat | i < PROC_NUM :: t[i].cwd == if i <= 1 then cwd else NULL
    ensures Cwds(t) == multiset{cwd, cwd}
  {
    hide Bag;
    var none := t[0 := t[2]][1 := t[2]];
    var one := none[0 := t[0]];
    NobodyStands(none);
    assert CwdKey(t[2]) == multiset{} && CwdKey(t[0]) == CwdKey(t[1]) == multiset{cwd};
    BagUpdate(none, CwdKey, 0, t[0]);
    assert Bag(one, CwdKey) == multiset{cwd};
    BagUpdate(one, CwdKey, 1, t[1]);
    assert t == one[1 := t[1]];
  }

  lemma NobodyStands(t: seq<Proc>)
    requires forall i: nat | i < |t| :: t[i].cwd == NULL
    ensures Bag(t, CwdKey) == multiset{}
  {
    hide Bag;
    forall l ensures Bag(t, CwdKey)[l] == 0 { BagNone(t, CwdKey, l); }
  }
}

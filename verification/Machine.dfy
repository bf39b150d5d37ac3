// The kernel as it runs: entry after entry, from the image on disk on.
module Machine {
  import opened Options
  import opened Bytes
  import opened Layout
  import opened Files
  import opened Dirents
  import opened Paths
  import opened Namespace
  import opened Inodes
  import opened Directories
  import opened Namei
  import opened OpenFiles
  import opened Procs
  import opened ProcInvariant
  import opened ProcSteps
  import opened ProcRuns
  import opened ProcFair
  import opened ProcTables
  import opened FileRefs
  import opened SystemCalls
  import opened Console
  import opened Devices

  // ---- histories ----

  lemma {:induction false} RunsMore(s: State, log: Log, es: seq<Event>, t: State, log': Log, e: Event)
    requires Runs(s, log, es, t, log') && Enabled(t, e)
    ensures Runs(s, log, es + [e], Step(t, e), LogStep(t, e, log'))
    decreases |es|
  {
    hide Step, LogStep;
    if es == [] {
      assert es + [e] == [e] && [e][1..] == [];
      assert Runs(Step(t, e), LogStep(t, e, log'), [], Step(t, e), LogStep(t, e, log'));
    } else {
      RunsMore(Step(s, es[0]), LogStep(s, es[0], log), es[1..], t, log', e);
      assert (es + [e])[1..] == es[1..] + [e] && (es + [e])[0] == es[0];
    }
  }

  function Keys(n: nat): seq<Event> { seq(n, _ => KeyCall) }

  lemma {:induction false} RunsKeys(s: State, log: Log, es: seq<Event>, t: State, log': Log, n: nat)
    returns (log'': Log)
    requires Runs(s, log, es, t, log') && Inv(t) && Enabled(t, KeyCall)
    ensures Runs(s, log, es + Keys(n), Keyed(t, n), log'')
    ensures Inv(Keyed(t, n)) && Enabled(Keyed(t, n), KeyCall)
  {
    hide Runs, LogStep, Inv, Enabled, VSem;
    if n == 0 {
      assert es + Keys(0) == es;
      log'' := log';
    } else {
      var l := RunsKeys(s, log, es, t, log', n - 1);
      var u := Keyed(t, n - 1);
      RunsMore(s, log, es + Keys(n - 1), u, l, KeyCall);
      StepInv(u, KeyCall);
      KeyAgain(u);
      assert es + Keys(n) == es + Keys(n - 1) + [KeyCall];
      log'' := LogStep(u, KeyCall, l);
    }
  }

  // ---- processes inside serial_read ----

  // How many characters were asked for, and those got so far.
  datatype SerialRead = SerialRead(count: u32, got: string)

  // The loop of serial_read goes on: there is room, and the line is not over.
  predicate WantsMore(count: u32, got: string) {
    |got| < count && (got == [] || got[|got| - 1] != Serial.NL)
  }

  // Only the last character can be the end of the line, and no more are there than were asked for.
  predicate WithinLine(count: u32, got: string) {
    |got| <= count && forall i: nat | i + 1 < |got| :: got[i] != Serial.NL
  }

  // Exactly the processes in getchar are inside a read, each with a part of a line.
  ghost predicate Asked(s: State, readers: map<int, SerialRead>) {
    && (forall p: int :: p in readers <==> 0 <= p < |s.pcb| && s.pcb[p].kont == InSem(SERIAL))
    && (forall p | p in readers ::
      WantsMore(readers[p].count, readers[p].got) && WithinLine(readers[p].count, readers[p].got))
  }

  lemma AskedSame(s: State, s': State, readers: map<int, SerialRead>)
    requires Asked(s, readers) && SameAskers(s.pcb, s'.pcb)
    ensures Asked(s', readers)
  {}

  lemma AskedOther(s: State, e: Event, readers: map<int, SerialRead>)
    requires Inv(s) && Enabled(s, e) && Asked(s, readers) && !e.GetcharCall? && !e.KeyCall?
    requires e.ResumeCall? ==> Curr(s).kont != InSem(SERIAL)
    ensures Asked(Step(s, e), readers)
  {
    hide Inv, Asked, Step, LetThrough, SameAskers;
    OtherReaders(s, e);
    AskedSame(s, Step(s, e), readers);
  }

  lemma {:induction false} AskedKeyed(s: State, n: nat, readers: map<int, SerialRead>)
    requires Asked(s, readers)
    ensures Asked(Keyed(s, n), readers)
  {
    if n > 0 {
      AskedKeyed(s, n - 1, readers);
      hide Asked;
      KeyAskers(Keyed(s, n - 1));
      AskedSame(Keyed(s, n - 1), Keyed(s, n), readers);
    }
  }

  lemma KeyAskers(s: State)
    ensures SameAskers(s.pcb, VSem(s, SERIAL).pcb)
  {}

  // The P of getchar: at once, or the process goes to sleep in the middle of its read.
  lemma AskedGetchar(s: State, readers: map<int, SerialRead>, r: SerialRead)
    requires Inv(s) && Enabled(s, GetcharCall) && Asked(s, readers)
    requires WantsMore(r.count, r.got) && WithinLine(r.count, r.got)
    ensures Asked(Step(s, GetcharCall), if Switches(s, GetcharCall) then readers[s.curr := r] else readers)
    ensures !Switches(s, GetcharCall) ==> Step(s, GetcharCall).curr == s.curr && Step(s, GetcharCall).pcb == s.pcb
  {
    hide Inv, Shape, Core, Zombies, Schedule;
    CurrFacts(s);
    if Switches(s, GetcharCall) {
      var c' := Curr(s).(status := Blocked, kont := InSem(SERIAL));
      var m := s.sems[SERIAL].sem;
      var t := s.(pcb := s.pcb[s.curr := c'],
                  sems := s.sems[SERIAL := s.sems[SERIAL].(sem := m.(queue := m.queue + [s.curr]))]);
      assert Asked(t, readers[s.curr := r]);
      ScheduleReaders(t);
      AskedSame(t, Schedule(t), readers[s.curr := r]);
    }
  }

  // Behind the sem_p of getchar again.
  lemma AskedResume(s: State, readers: map<int, SerialRead>)
    requires Inv(s) && Enabled(s, ResumeCall) && Asked(s, readers) && Curr(s).kont == InSem(SERIAL)
    ensures s.curr in readers && Asked(Step(s, ResumeCall), readers - {s.curr})
    ensures Step(s, ResumeCall).curr == s.curr < |Step(s, ResumeCall).pcb|
    ensures Curr(Step(s, ResumeCall)).kont == User
  {}

  // ---- the books of a run ----

  // The state is one that a run from boot leads to, and the serial line and its readers are in step with it.
  ghost predicate Book(s: State, l: Serial.Line, readers: map<int, SerialRead>, cwd: int, es: seq<Event>, log: Log) {
    Inv(s) && Joined(s, l) && Asked(s, readers) && Runs(Init(cwd), NoLog(), es, s, log)
  }

  // An event that is none of getchar's leaves line and readers alone.
  lemma BookStep(s: State, e: Event, l: Serial.Line, readers: map<int, SerialRead>, cwd: int, es: seq<Event>, log: Log)
    requires Book(s, l, readers, cwd, es, log) && Enabled(s, e) && !e.GetcharCall? && !e.KeyCall?
    requires e.ResumeCall? ==> Curr(s).kont != InSem(SERIAL)
    ensures Book(Step(s, e), l, readers, cwd, es + [e], LogStep(s, e, log))
  {
    hide Inv, Joined, Asked, Runs, Step, LogStep, Init, SameReaders;
    StepInv(s, e);
    OtherReaders(s, e);
    SameJoined(s, Step(s, e), l);
    AskedOther(s, e, readers);
    RunsMore(Init(cwd), NoLog(), es, s, log, e);
  }

  // A call on files: other descriptors or another directory for the running process, or nothing.
  lemma BookFiles(s: State, s': State, l: Serial.Line, readers: map<int, SerialRead>, cwd: int, es: seq<Event>,
      log: Log)
    requires Book(s, l, readers, cwd, es, log) && Refiles(s, s') && s.curr != 0 && Curr(s).kont == User
    ensures Enabled(s, FiledAs(s')) && Book(s', l, readers, cwd, es + [FiledAs(s')], LogStep(s, FiledAs(s'), log))
  {
    hide Book, Step, LogStep;
    FilesStep(s, s');
    BookStep(s, FiledAs(s'), l, readers, cwd, es, log);
  }

  function FiledAs(s: State): Event {
    if s.curr < |s.pcb| then FilesCall(Curr(s).files, Curr(s).cwd) else Yield
  }

  // The P of getchar.
  lemma BookGetchar(s: State, l: Serial.Line, readers: map<int, SerialRead>, cwd: int, es: seq<Event>, log: Log,
      r: SerialRead)
    requires Book(s, l, readers, cwd, es, log) && s.curr != 0 && s.curr < |s.pcb| && Curr(s).kont == User
    requires WantsMore(r.count, r.got) && WithinLine(r.count, r.got)
    ensures Enabled(s, GetcharCall)
    ensures Book(Step(s, GetcharCall), LineStep(s, GetcharCall, l),
      if Switches(s, GetcharCall) then readers[s.curr := r] else readers, cwd, es + [GetcharCall],
      LogStep(s, GetcharCall, log))
    ensures !Switches(s, GetcharCall) ==> Step(s, GetcharCall).curr == s.curr && Step(s, GetcharCall).pcb == s.pcb
    ensures Switches(s, GetcharCall) <==> l.value == 0
    ensures LineStep(s, GetcharCall, l)
      == if l.value == 0 then l.(waiting := l.waiting + [s.curr]) else l.(value := l.value - 1)
  {
    hide Inv, Joined, Asked, Runs, Step, LogStep, Init, Switches, LineStep, WantsMore, WithinLine;
    GetcharIs(s, l);
    StepInv(s, GetcharCall);
    JoinedStep(s, GetcharCall, l);
    AskedGetchar(s, readers, r);
    RunsMore(Init(cwd), NoLog(), es, s, log, GetcharCall);
  }

  // A process that was let through goes on.
  lemma BookResume(s: State, l: Serial.Line, readers: map<int, SerialRead>, cwd: int, es: seq<Event>, log: Log)
    requires Book(s, l, readers, cwd, es, log) && Enabled(s, ResumeCall) && Curr(s).kont == InSem(SERIAL)
    ensures s.curr in readers && s.curr in l.granted && s.curr != 0
    ensures Book(Step(s, ResumeCall), l.(granted := Serial.Without(l.granted, s.curr)), readers - {s.curr}, cwd,
      es + [ResumeCall], LogStep(s, ResumeCall, log))
    ensures Step(s, ResumeCall).curr == s.curr < |Step(s, ResumeCall).pcb|
    ensures Curr(Step(s, ResumeCall)).kont == User
    ensures WantsMore(readers[s.curr].count, readers[s.curr].got)
      && WithinLine(readers[s.curr].count, readers[s.curr].got)
  {
    hide Inv, Joined, Asked, Runs, LogStep, Init, WantsMore, WithinLine, Step;
    StepInv(s, ResumeCall);
    GoneOnJoined(s, l);
    JoinedStep(s, ResumeCall, l);
    AskedResume(s, readers);
    AskedWants(s, readers, s.curr);
    RunsMore(Init(cwd), NoLog(), es, s, log, ResumeCall);
  }

  lemma BookKeyed(s: State, l: Serial.Line, readers: map<int, SerialRead>, cwd: int, es: seq<Event>, log: Log, n: nat)
    returns (log': Log)
    requires Book(s, l, readers, cwd, es, log) && Enabled(s, KeyCall)
    ensures Runs(Init(cwd), NoLog(), es + Keys(n), Keyed(s, n), log') && Asked(Keyed(s, n), readers) && Inv(Keyed(s, n))
  {
    hide Inv, Joined, Asked, Runs, Init, Enabled, Keyed;
    AskedKeyed(s, n, readers);
    log' := RunsKeys(Init(cwd), NoLog(), es, s, log, n);
  }

  // ---- what fork and wait return ----

  // No process has this number, nor had any that has exited.
  ghost predicate NeverUsed(s: State, log: Log, pid: int) {
    && (forall i: nat | i < |s.pcb| && Alive(s.pcb[i]) :: s.pcb[i].pid != pid)
    && forall k | 0 <= k < |log.exits| :: log.exits[k].pid != pid
  }

  // wait gives -1 exactly without children; otherwise it has entered number and exit code of what it
  // returns among the exits reported, or sleeps and has reported nothing.
  ghost predicate WaitTold(s: State, log: Log, log': Log, r: Ret, code: int) {
    && (r == Returned(-1) <==> s.curr < |s.pcb| && Curr(s).childNum == 0)
    && log'.exits == log.exits
    && log'.reaps == if r.Returned? && r.value != -1 then log.reaps + [Gone(r.value, code)] else log.reaps
  }

  lemma BookPids(s: State, l: Serial.Line, readers: map<int, SerialRead>, cwd: int, es: seq<Event>, log: Log)
    requires Book(s, l, readers, cwd, es, log)
    ensures Inv(s) && Books(s, log) && Pids(s, log)
  {
    hide Inv, Joined, Asked, Runs, Init, Pids, ExitBooks, SemBooks;
    InitInv(cwd);
    InitBooks(cwd);
    RunKeeps(Init(cwd), NoLog(), es, s, log);
  }

  lemma NextIsNew(s: State, log: Log)
    requires Pids(s, log)
    ensures NeverUsed(s, log, s.nextPid)
  {}

  lemma WaitTells(s: State, e: Event, log: Log, r: Ret, code: int)
    requires Inv(s) && Books(s, log) && Enabled(s, e) && WaitGives(s, e, r, code)
    requires e.WaitCall? || (e.ResumeCall? && !Curr(s).kont.InSem?)
    ensures e.WaitCall? ==> WaitTold(s, log, LogStep(s, e, log), r, code)
    ensures e.ResumeCall? ==>
      r.Returned? && LogStep(s, e, log).reaps == log.reaps + [Gone(r.value, code)]
  {
    hide Core, Shape, FindZombie, Inv, Pids, ExitBooks, SemBooks, Unreaped, Zombies, Grant;
    CurrFacts(s);
    var z := ReapedBy(s, e);
    if z < |s.pcb| { ZombieNumber(s, log, z); }
  }

  // Behind its semaphore a wait returns a child that it enters among the exits reported, and a P returns 0.
  ghost predicate WentOn(k: Kont, log: Log, log': Log, r: Ret, code: int) {
    && log'.exits == log.exits
    && if k.InSem? then r == Returned(0) && log'.reaps == log.reaps
       else r.Returned? && log'.reaps == log.reaps + [Gone(r.value, code)]
  }

  lemma GoneOnTells(s: State, log: Log, r: Ret, code: int)
    requires Inv(s) && Books(s, log) && Enabled(s, ResumeCall)
    requires if Curr(s).kont.InSem? then r == Returned(0) else WaitGives(s, ResumeCall, r, code)
    ensures WentOn(Curr(s).kont, log, LogStep(s, ResumeCall, log), r, code)
  {
    hide Inv, Books, WaitGives;
    if !Curr(s).kont.InSem? { WaitTells(s, ResumeCall, log, r, code); }
  }

  lemma ExitLogged(s: State, code: int, log: Log)
    requires Enabled(s, ExitCall(code))
    ensures s.curr < |s.pcb|
    ensures LogStep(s, ExitCall(code), log).exits == log.exits + [Gone(Curr(s).pid, code)]
    ensures LogStep(s, ExitCall(code), log).reaps == log.reaps
  {}

  // What a zombie has for a number.
  lemma ZombieNumber(s: State, log: Log, z: nat)
    requires Books(s, log) && z < |s.pcb| && s.pcb[z].status == Zombie
    ensures s.pcb[z].pid >= 0
  {
    hide Unreaped, SemBooks;
    UnreapedUpdate(s.pcb, z, s.pcb[z]);
    var g := Gone(s.pcb[z].pid, s.pcb[z].exitCode);
    assert g in multiset(log.exits);
  }

  // Entry k of a path, buffers and numbers of the system calls; and what the machine does by itself.
  datatype Entry =
    | Tick                          // the timer; sys_yield
    | Typed(keys: string)           // the serial interrupt
    | Go                            // a process goes on inside the kernel
    | Fork | Exit(code: int) | Wait
    | SemOpen(value: int) | SemP(id: int) | SemV(id: int) | SemClose(id: int)
    | Open(path: seq<byte>, mode: Mode) | Close(fd: int) | Dup(fd: int) | Chdir(path: seq<byte>)
    | Read(fd: int, size: u32) | Write(fd: int, buf: seq<byte>) | Lseek(fd: int, off: u32, whence: Whence)
    | Unlink(path: seq<byte>)

  // What a read comes to: nothing to read from, bytes of a file, characters typed, or to be continued.
  datatype Input = NoInput | Bytes(data: seq<byte>) | Line(text: string) | Asleep

  class Machine {
    const term: Terminal
    // The stacks of the processes asleep in serial_read, and what was written to the serial port.
    var readers: map<int, SerialRead>
    var screen: seq<byte>
    ghost const cwd: int
    ghost var events: seq<Event>
    ghost var log: Log

    // A machine that has come up.
    constructor (kernel: Kernel, ghost cwd: int)
      requires kernel.Valid() && kernel.procs.Abs() == Init(cwd)
      ensures Valid() && fresh(term) && fresh(term.port) && fresh(term.port.buffer) && term.kernel == kernel
      ensures Abs() == Init(cwd) && this.cwd == cwd && events == [] && screen == [] && readers == map[]
    {
      hide ProcTables.ProcTable.Abs, ProcTables.ProcTable.Table, ProcTables.ProcTable.Sems, UsemOf,
        SystemCalls.Kernel.Valid, Serial.Port.Valid, Book, Init;
      term := new Terminal(kernel, cwd);
      readers := map[];
      screen := [];
      this.cwd := cwd;
      events := [];
      log := NoLog();
      new;
      FirstBook(cwd);
    }

    ghost function Abs(): State
      reads term.kernel.procs, term.kernel.procs.pcb, term.kernel.procs.userSem,
        term.kernel.procs.lists, term.kernel.procs.lists.prev, term.kernel.procs.lists.next,
        term.kernel.procs.lists.item
    {
      term.kernel.procs.Abs()
    }

    // All of the memory of the kernel.
    ghost function Memory(): set<object> {
      var procs, ft := term.kernel.procs, term.kernel.ft;
      {procs, procs.pcb, procs.userSem, procs.lists, procs.lists.prev, procs.lists.next, procs.lists.item,
       ft, ft.files, ft.fs, ft.fs.inodes, ft.fs.disk, ft.fs.disk.sectors, ft.fs.disk.cache,
       term.kernel, term, term.port, term.port.buffer}
    }

    // The books of kernel and terminal balance, and the state is one that a run from boot leads to.
    ghost predicate Valid()
      reads this, Memory()
    {
      && this !in Memory() && term.Apart() && term.kernel.Valid() && term.port.Valid()
      && Book(Abs(), term.port.Sem(), readers, cwd, events, log)
    }

    // The timer, whoever runs, or sys_yield.
    method Tick()
      requires Valid() && Enabled(Abs(), Yield)
      modifies this`events, this`log, Memory()
      ensures Valid() && events == old(events) + [Yield] && Abs() == Step(old(Abs()), Yield)
    {
      hide ProcTables.ProcTable.Abs, ProcTables.ProcTable.Table, ProcTables.ProcTable.Sems, UsemOf,
        SystemCalls.Kernel.Valid, Serial.Port.Valid, Book, Step, LogStep, Enabled, OpenFiles.FileTable.Now;
      BookStep(Abs(), Yield, term.port.Sem(), readers, cwd, events, log);
      events, log := events + [Yield], LogStep(Abs(), Yield, log);
      term.kernel.SysYield();
    }

    lemma TableIs()
      ensures Abs().pcb == term.kernel.procs.Table() && |Abs().pcb| == PROC_NUM
      ensures Abs().nextPid == term.kernel.procs.nextPid && Abs().curr == term.kernel.procs.curr
    {
      hide ProcTables.ProcTable.Table, ProcTables.ProcTable.Sems;
    }

    method Fork() returns (r: int)
      requires Valid() && Enabled(Abs(), ForkCall)
      modifies this`events, this`log, Memory()
      ensures Valid() && events == old(events) + [ForkCall] && Abs() == Step(old(Abs()), ForkCall)
      ensures r == -1 <==> NoRoom(old(Abs()).pcb)
      ensures r == -1 ==> Abs() == old(Abs())
      ensures r != -1 ==> r >= 2 && NeverUsed(old(Abs()), old(log), r)
      ensures r != -1 ==> NewChild(old(Abs()).pcb, Abs().pcb, old(Abs()).curr, r)
    {
      hide ProcTables.ProcTable.Abs, ProcTables.ProcTable.Table, ProcTables.ProcTable.Sems, UsemOf,
        SystemCalls.Kernel.Valid, Serial.Port.Valid, Book, Step, LogStep, Enabled, OpenFiles.FileTable.Now, Inv, Books,
        Pids, NeverUsed, NoRoom, NewChild;
      BookStep(Abs(), ForkCall, term.port.Sem(), readers, cwd, events, log);
      BookPids(Abs(), term.port.Sem(), readers, cwd, events, log);
      NextIsNew(Abs(), log);
      TableIs();
      events, log := events + [ForkCall], LogStep(Abs(), ForkCall, log);
      r := term.kernel.SysFork();
      TableIs();
    }

    method Exit(code: int)
      requires Valid() && Enabled(Abs(), ExitCall(code))
      modifies this`events, this`log, Memory()
      ensures Valid() && events == old(events) + [ExitCall(code)] && Abs() == Step(old(Abs()), ExitCall(code))
      ensures log.exits == old(log.exits) + [Gone(Curr(old(Abs())).pid, code)] && log.reaps == old(log.reaps)
    {
      hide ProcTables.ProcTable.Abs, ProcTables.ProcTable.Table, ProcTables.ProcTable.Sems, UsemOf,
        SystemCalls.Kernel.Valid, Serial.Port.Valid, Book, Step, LogStep, Enabled, OpenFiles.FileTable.Now;
      BookStep(Abs(), ExitCall(code), term.port.Sem(), readers, cwd, events, log);
      ExitLogged(Abs(), code, log);
      events, log := events + [ExitCall(code)], LogStep(Abs(), ExitCall(code), log);
      term.kernel.SysExit(code);
    }

    method Wait() returns (r: Ret, code: int)
      requires Valid() && Enabled(Abs(), WaitCall)
      modifies this`events, this`log, Memory()
      ensures Valid() && events == old(events) + [WaitCall] && Abs() == Step(old(Abs()), WaitCall)
      ensures WaitTold(old(Abs()), old(log), log, r, code)
    {
      hide ProcTables.ProcTable.Abs, ProcTables.ProcTable.Table, ProcTables.ProcTable.Sems, UsemOf,
        SystemCalls.Kernel.Valid, Serial.Port.Valid, Book, Step, LogStep, Enabled, OpenFiles.FileTable.Now, Inv, Books,
        Pids, WaitGives, WaitTold;
      ghost var s := Abs();
      BookStep(s, WaitCall, term.port.Sem(), readers, cwd, events, log);
      BookPids(s, term.port.Sem(), readers, cwd, events, log);
      events, log := events + [WaitCall], LogStep(Abs(), WaitCall, log);
      r, code := term.kernel.SysWait();
      WaitTells(s, WaitCall, old(log), r, code);
    }

    method SemOpen(value: int) returns (r: int)
      requires Valid() && Enabled(Abs(), SemOpenCall(value))
      modifies this`events, this`log, Memory()
      ensures Valid() && events == old(events) + [SemOpenCall(value)] && Abs() == Step(old(Abs()), SemOpenCall(value))
      ensures var id := FreeSlot(Curr(old(Abs())).usems, 0);
        r == if id == MAX_USEM || FreeSem(old(Abs()).sems, 0) == SEM_NUM then -1 else id
    {
      hide ProcTables.ProcTable.Abs, ProcTables.ProcTable.Table, ProcTables.ProcTable.Sems, UsemOf,
        SystemCalls.Kernel.Valid, Serial.Port.Valid, Book, Step, LogStep, Enabled, OpenFiles.FileTable.Now;
      BookStep(Abs(), SemOpenCall(value), term.port.Sem(), readers, cwd, events, log);
      events, log := events + [SemOpenCall(value)], LogStep(Abs(), SemOpenCall(value), log);
      r := term.kernel.SysSemOpen(value);
    }

    method SemP(id: int) returns (r: Ret)
      requires Valid() && Enabled(Abs(), SemPCall(id))
      modifies this`events, this`log, Memory()
      ensures Valid() && events == old(events) + [SemPCall(id)] && Abs() == Step(old(Abs()), SemPCall(id))
      ensures r == if UsemOf(Curr(old(Abs())), id) == NULL then Returned(-1)
                   else if Switches(old(Abs()), SemPCall(id)) then Away else Returned(0)
    {
      hide ProcTables.ProcTable.Abs, ProcTables.ProcTable.Table, ProcTables.ProcTable.Sems, UsemOf,
        SystemCalls.Kernel.Valid, Serial.Port.Valid, Book, Step, LogStep, Enabled, OpenFiles.FileTable.Now;
      BookStep(Abs(), SemPCall(id), term.port.Sem(), readers, cwd, events, log);
      events, log := events + [SemPCall(id)], LogStep(Abs(), SemPCall(id), log);
      r := term.kernel.SysSemP(id);
    }

    method SemV(id: int) returns (r: int)
      requires Valid() && Enabled(Abs(), SemVCall(id))
      modifies this`events, this`log, Memory()
      ensures Valid() && events == old(events) + [SemVCall(id)] && Abs() == Step(old(Abs()), SemVCall(id))
      ensures r == if UsemOf(Curr(old(Abs())), id) == NULL then -1 else 0
    {
      hide ProcTables.ProcTable.Abs, ProcTables.ProcTable.Table, ProcTables.ProcTable.Sems, UsemOf,
        SystemCalls.Kernel.Valid, Serial.Port.Valid, Book, Step, LogStep, Enabled, OpenFiles.FileTable.Now;
      BookStep(Abs(), SemVCall(id), term.port.Sem(), readers, cwd, events, log);
      events, log := events + [SemVCall(id)], LogStep(Abs(), SemVCall(id), log);
      r := term.kernel.SysSemV(id);
    }

    method SemClose(id: int) returns (r: int)
      requires Valid() && Enabled(Abs(), SemCloseCall(id))
      modifies this`events, this`log, Memory()
      ensures Valid() && events == old(events) + [SemCloseCall(id)] && Abs() == Step(old(Abs()), SemCloseCall(id))
      ensures r == if UsemOf(Curr(old(Abs())), id) == NULL then -1 else 0
    {
      hide ProcTables.ProcTable.Abs, ProcTables.ProcTable.Table, ProcTables.ProcTable.Sems, UsemOf,
        SystemCalls.Kernel.Valid, Serial.Port.Valid, Book, Step, LogStep, Enabled, OpenFiles.FileTable.Now;
      BookStep(Abs(), SemCloseCall(id), term.port.Sem(), readers, cwd, events, log);
      events, log := events + [SemCloseCall(id)], LogStep(Abs(), SemCloseCall(id), log);
      r := term.kernel.SysSemClose(id);
    }

    // ---- calls on files: the process has other descriptors or another directory, or nothing changes ----

    // A process is running in user mode.
    ghost predicate Calling()
      reads this, Memory()
    {
      Valid() && Abs().curr != 0 && Abs().curr < |Abs().pcb| && Curr(Abs()).kont == User
    }

    lemma CallFacts()
      requires Calling()
      ensures term.kernel.Asking() && |Curr(Abs()).files| == MAX_UFILE
    {
      hide ProcTables.ProcTable.Table, ProcTables.ProcTable.Sems, SystemCalls.Kernel.Valid, Book;
      term.kernel.StandsHere();
    }

    lemma CurrIs()
      requires Valid()
      ensures Abs().curr == term.kernel.procs.curr && Abs().curr < |Abs().pcb|
      ensures |term.kernel.procs.Table()| == |Abs().pcb| && Curr(Abs()) == term.kernel.procs.Table()[Abs().curr]
    {
      hide ProcTables.ProcTable.Sems, ProcTables.ProcTable.Wellformed, TableOf, SystemCalls.Kernel.Valid, Inv, Joined,
        Asked, Runs, Init;
      BookParts(Abs(), term.port.Sem(), readers, cwd, events, log);
      CurrFacts(Abs());
    }

    lemma KontAt()
      requires Valid()
      ensures term.kernel.procs.pcb.Length == PROC_NUM && term.kernel.procs.curr < PROC_NUM
      ensures Abs().curr == term.kernel.procs.curr < |Abs().pcb|
      ensures term.kernel.procs.pcb[term.kernel.procs.curr].kont == Curr(Abs()).kont
    {
      hide ProcTables.ProcTable.Wellformed, Inv, Book;
      term.kernel.procs.ProcIs(term.kernel.procs.curr);
    }

    // The call has been made in state s.
    ghost method Record(s: State)
      requires this !in Memory() && term.Apart() && term.kernel.Valid() && term.port.Valid()
      requires Book(s, term.port.Sem(), readers, cwd, events, log)
      requires Refiles(s, Abs()) && s.curr != 0 && Curr(s).kont == User
      modifies this`events, this`log
      ensures Valid() && events == old(events) + [FiledAs(Abs())]
    {
      hide ProcTables.ProcTable.Abs, ProcTables.ProcTable.Table, ProcTables.ProcTable.Sems, UsemOf,
        SystemCalls.Kernel.Valid, Serial.Port.Valid, Book, LogStep, Refiles, FiledAs;
      BookFiles(s, Abs(), term.port.Sem(), readers, cwd, events, log);
      events, log := events + [FiledAs(Abs())], LogStep(s, FiledAs(Abs()), log);
    }

    method Open(path: seq<byte>, mode: Mode) returns (r: Outcome<int>)
      requires Calling() && 0 !in path
      modifies this`events, this`log, Memory()
      ensures r.Abort? && !Exhausted(term.kernel.ft.fs, old(term.kernel.ft.Now())) ==>
        exists i: nat :: OddAt(old(term.kernel.ft.Now()), i)
      ensures r.Done? ==> Valid() && events == old(events) + [FiledAs(Abs())]
      ensures r.Done? ==> exists got: Option<nat> ::
        OpenDone(old(Abs()), Abs(), old(term.kernel.ft.files[..]), term.kernel.ft.files[..],
          old(term.kernel.ft.Now()), term.kernel.ft.Now(), path, old(term.kernel.Here()), mode,
          term.kernel.ft.fs.inodes[..], got, r.value)
    {
      hide ProcTables.ProcTable.Abs, ProcTables.ProcTable.Table, ProcTables.ProcTable.Sems, UsemOf,
        SystemCalls.Kernel.Valid, Serial.Port.Valid, Book, Step, LogStep, OpenFiles.FileTable.Now, Exhausted,
        WithFile, Refiles, Moved, Refiled, Target, IsDirectory, SystemCalls.Kernel.Here, OpenDone, FiledAs,
        OpenFiles.FileTable.NoBlock, OpenDirNamed, Unlinks, Seeks, FileOf;
      ghost var s := Abs();
      CallFacts();
      ghost var got;
      r, got := term.kernel.SysOpen(path, mode);
      if r.Abort? { return; }
      OpenRefiles(s, Abs(), old(term.kernel.ft.files[..]), term.kernel.ft.files[..], old(term.kernel.ft.Now()),
        term.kernel.ft.Now(), path, old(term.kernel.Here()), mode, term.kernel.ft.fs.inodes[..], got, r.value);
      Record(s);
      assert OpenDone(s, Abs(), old(term.kernel.ft.files[..]), term.kernel.ft.files[..], old(term.kernel.ft.Now()),
        term.kernel.ft.Now(), path, old(term.kernel.Here()), mode, term.kernel.ft.fs.inodes[..], got, r.value);
    }

    method Close(fd: int) returns (r: int)
      requires Calling()
      modifies this`events, this`log, Memory()
      ensures Valid() && events == old(events) + [FiledAs(Abs())]
      ensures r == if FileOf(Curr(old(Abs())), fd) == NULL then -1 else 0
      ensures Abs() == if r == -1 then old(Abs()) else Refiled(old(Abs()), fd, NULL)
      ensures OnlyMarkedGo(old(term.kernel.ft.Now()), term.kernel.ft.Now(), old(Marked(term.kernel.ft.fs.inodes[..])))
    {
      hide ProcTables.ProcTable.Abs, ProcTables.ProcTable.Table, ProcTables.ProcTable.Sems, UsemOf,
        SystemCalls.Kernel.Valid, Serial.Port.Valid, Book, Step, LogStep, OpenFiles.FileTable.Now, Exhausted,
        WithFile, Refiles, Moved, Refiled, Target, IsDirectory, SystemCalls.Kernel.Here, OpenDone, FiledAs,
        OpenFiles.FileTable.NoBlock, OpenDirNamed, Unlinks, Seeks, FileOf;
      ghost var s := Abs();
      CallFacts();
      r := term.kernel.SysClose(fd);
      if r == 0 { RefiledOne(s, fd, NULL); } else { RefilesSelf(s); }
      Record(s);
    }

    method Dup(fd: int) returns (r: int)
      requires Calling()
      modifies this`events, this`log, Memory()
      ensures Valid() && events == old(events) + [FiledAs(Abs())]
      ensures term.kernel.ft.Now() == old(term.kernel.ft.Now())
      ensures var c := Curr(old(Abs()));
        r == if FileOf(c, fd) == NULL || FreeSlot(c.files, 0) == MAX_UFILE then -1 else FreeSlot(c.files, 0)
      ensures Abs() == if r == -1 then old(Abs()) else Refiled(old(Abs()), r, FileOf(Curr(old(Abs())), fd))
    {
      hide ProcTables.ProcTable.Abs, ProcTables.ProcTable.Table, ProcTables.ProcTable.Sems, UsemOf,
        SystemCalls.Kernel.Valid, Serial.Port.Valid, Book, Step, LogStep, OpenFiles.FileTable.Now, Exhausted,
        WithFile, Refiles, Moved, Refiled, Target, IsDirectory, SystemCalls.Kernel.Here, OpenDone, FiledAs,
        OpenFiles.FileTable.NoBlock, OpenDirNamed, Unlinks, Seeks, FileOf;
      ghost var s := Abs();
      CallFacts();
      r := term.kernel.SysDup(fd);
      if r == -1 { RefilesSelf(s); } else { RefiledOne(s, r, FileOf(Curr(s), fd)); }
      Record(s);
    }

    method Chdir(path: seq<byte>) returns (r: Outcome<int>)
      requires Calling() && 0 !in path
      modifies this`events, this`log, Memory()
      ensures r.Abort? ==> Exhausted(term.kernel.ft.fs, old(term.kernel.ft.Now()))
      ensures r.Done? ==> Valid() && events == old(events) + [FiledAs(Abs())]
      ensures r.Done? ==> term.kernel.ft.Now() == old(term.kernel.ft.Now())
      ensures r.Done? ==>
        r.value == if IsDirectory(old(term.kernel.ft.Now()),
          Target(old(term.kernel.ft.Now()), path, old(term.kernel.Here()))) then 0 else -1
      ensures r == Done(-1) ==> Abs() == old(Abs())
      ensures r == Done(0) ==> term.kernel.Here() == Target(old(term.kernel.ft.Now()), path, old(term.kernel.Here()))
    {
      hide ProcTables.ProcTable.Abs, ProcTables.ProcTable.Table, ProcTables.ProcTable.Sems, UsemOf,
        SystemCalls.Kernel.Valid, Serial.Port.Valid, Book, Step, LogStep, OpenFiles.FileTable.Now, Exhausted,
        WithFile, Refiles, Moved, Refiled, Target, IsDirectory, SystemCalls.Kernel.Here, OpenDone, FiledAs,
        OpenFiles.FileTable.NoBlock, OpenDirNamed, Unlinks, Seeks, FileOf;
      ghost var s := Abs();
      CallFacts();
      r := term.kernel.SysChdir(path);
      if r.Abort? { return; }
      if r.value == -1 { RefilesSelf(s); } else { RefilesMoved(s); }
      Record(s);
    }

    method Lseek(fd: int, off: u32, whence: Whence) returns (r: u32)
      requires Calling()
      modifies this`events, this`log, Memory()
      ensures Valid() && events == old(events) + [FiledAs(Abs())]
      ensures Abs() == old(Abs()) && term.kernel.ft.Now() == old(term.kernel.ft.Now())
      ensures var k := FileOf(Curr(old(Abs())), fd);
        if k < 0 then r == 0xFFFF_FFFF && term.kernel.ft.files[..] == old(term.kernel.ft.files[..])
        else Seeks(term.kernel.ft.Now(), term.kernel.ft.fs.inodes[..], old(term.kernel.ft.files[..]),
          term.kernel.ft.files[..], k, off, whence, r)
    {
      hide ProcTables.ProcTable.Abs, ProcTables.ProcTable.Table, ProcTables.ProcTable.Sems, UsemOf,
        SystemCalls.Kernel.Valid, Serial.Port.Valid, Book, Step, LogStep, OpenFiles.FileTable.Now, Exhausted,
        WithFile, Refiles, Moved, Refiled, Target, IsDirectory, SystemCalls.Kernel.Here, OpenDone, FiledAs,
        OpenFiles.FileTable.NoBlock, OpenDirNamed, Unlinks, Seeks, FileOf;
      ghost var s := Abs();
      CallFacts();
      CurrIs();
      r := term.kernel.SysLseek(fd, off, whence);
      RefilesSelf(s);
      Record(s);
    }

    // ---- the serial line ----

    method Type(keys: string)
      requires Valid() && Enabled(Abs(), KeyCall)
      modifies this`events, this`log, Memory()
      ensures Valid() && term.port.typed == Serial.Burst(old(term.port.typed), keys)
      ensures term.port.given == old(term.port.given) && old(term.port.clapboard) <= term.port.clapboard
      ensures events == old(events) + Keys(term.port.clapboard - old(term.port.clapboard))
    {
      hide ProcTables.ProcTable.Abs, ProcTables.ProcTable.Table, ProcTables.ProcTable.Sems, UsemOf,
        SystemCalls.Kernel.Valid, Serial.Port.Valid, Book, Enabled, OpenFiles.FileTable.Now, Joined, Keyed, Keys, Inv,
        Asked, Runs, Init, Serial.Burst;
      ghost var s, l, before := Abs(), term.port.Sem(), term.port.clapboard;
      BookParts(s, l, readers, cwd, events, log);
      term.Interrupt(keys);
      ghost var n := term.port.clapboard - before;
      log := BookKeyed(s, l, readers, cwd, events, log, n);
      events := events + Keys(n);
      BookWhole(Abs(), term.port.Sem(), readers, cwd, events, log);
    }

    // One getchar on behalf of a read that has got so far: a character, or the read goes to sleep.
    method Next(rd: SerialRead) returns (r: Serial.Took)
      requires Calling() && WantsMore(rd.count, rd.got) && WithinLine(rd.count, rd.got)
      modifies this`readers, this`events, this`log, Memory()
      ensures Valid() && events == old(events) + [GetcharCall] && term.kernel.ft.Now() == old(term.kernel.ft.Now())
      ensures r == Serial.Waiting ==>
        readers == old(readers)[old(Abs().curr) := rd] && term.port.given == old(term.port.given)
      ensures r.Char? ==> Calling() && readers == old(readers) && Abs().curr == old(Abs().curr)
      ensures r.Char? ==> term.port.given == old(term.port.given) + [r.ch] && r.ch != Serial.NUL
    {
      hide ProcTables.ProcTable.Abs, ProcTables.ProcTable.Table, ProcTables.ProcTable.Sems, UsemOf,
        SystemCalls.Kernel.Valid, Serial.Port.Valid, Book, LogStep, Step, OpenFiles.FileTable.Now, Switches, WantsMore,
        WithinLine, LineStep, Enabled;
      ghost var s := Abs();
      CurrIs();
      BookGetchar(s, term.port.Sem(), readers, cwd, events, log, rd);
      events, log := events + [GetcharCall], LogStep(s, GetcharCall, log);
      var p := term.kernel.procs.curr;
      r := term.port.Getchar(p);
      var away := term.kernel.Getchar();
      if r == Serial.Waiting { readers := readers[p := rd]; }
    }

    // serial_read, or what is left of it: up to count characters, up to the end of the line.
    method Fill(count: u32, start: string) returns (r: Input)
      requires Calling() && WithinLine(count, start)
      modifies this`readers, this`events, this`log, Memory()
      ensures Valid() && term.kernel.ft.Now() == old(term.kernel.ft.Now()) && GotMore(old(events), events)
      ensures Filled(r, count, start, old(readers), readers, old(Abs().curr), old(term.port.given), term.port.given,
        old(events), events)
    {
      hide ProcTables.ProcTable.Abs, Valid, WantsMore, WithinLine, Filling, Filled, OpenFiles.FileTable.Now;
      ghost var given, es := term.port.given, events;
      var text := start;
      FillStart(start, given, es);
      while WantsMore(count, text)
        invariant Calling() && WithinLine(count, text) && readers == old(readers) && Abs().curr == old(Abs().curr)
        invariant Filling(start, text, given, term.port.given, es, events)
        invariant term.kernel.ft.Now() == old(term.kernel.ft.Now())
        decreases count - |text|
      {
        RoomLeft(count, text);
        ghost var sofar, came := term.port.given, events;
        var took := Next(SerialRead(count, text));
        if took == Serial.Waiting {
          FillSleeps(count, start, text, old(readers), readers, old(Abs().curr), given, sofar, es, came);
          return Asleep;
        }
        OneMore(count, text, took.ch);
        FillOne(start, text, took.ch, given, sofar, es, came);
        text := text + [took.ch];
      }
      FillEnds(count, start, text, readers, old(Abs().curr), given, term.port.given, es, events);
      return Line(text);
    }

    // read: what fread returns, or the loop of serial_read; read on /dev/null returns -1.
    method Read(fd: int, size: u32) returns (r: Outcome<Input>)
      requires Calling()
      modifies this`readers, this`events, this`log, Memory()
      ensures r.Abort? ==> var k := FileOf(Curr(old(Abs())), fd);
        NoDevice(old(term.kernel.ft.files[..]), k) || term.kernel.ft.NoBlock()
          || OffsetOf(old(term.kernel.ft.files[..]), k) + size >= MAX_FILE
      ensures r.Done? ==> Valid() && term.kernel.ft.Now() == old(term.kernel.ft.Now())
      ensures r.Done? ==> events == old(events) + [FiledAs(Abs())] || GotMore(old(events), events)
      ensures r.Done? ==> var k := FileOf(Curr(old(Abs())), fd);
        if OnConsole(old(term.kernel.ft.files[..]), k) then
          Filled(r.value, size, [], old(readers), readers, old(Abs().curr), old(term.port.given), term.port.given,
            old(events), events)
        else
          events == old(events) + [FiledAs(Abs())]
            && ReadsAs(term.kernel.ft.Now(), old(term.kernel.ft.fs.inodes[..]), old(term.kernel.ft.files[..]),
              term.kernel.ft.files[..], k, size, r.value)
    {
      hide ProcTables.ProcTable.Abs, ProcTables.ProcTable.Table, ProcTables.ProcTable.Sems, UsemOf,
        SystemCalls.Kernel.Valid, Serial.Port.Valid, Book, Step, LogStep, OpenFiles.FileTable.Now, Exhausted, WithFile,
        Refiles, Moved, Refiled, Target, IsDirectory, SystemCalls.Kernel.Here, FiledAs, Reads, Writes, ReadsAs,
        OpenFiles.FileTable.NoBlock, OpenDirNamed, Unlinks, Refuses, FileOf, Filled, Inodes.Fs.Valid, Inodes.Fs.F, Torn;
      ghost var s := Abs();
      CallFacts();
      CurrIs();
      var got := term.kernel.SysRead(fd, size);
      if got.Abort? { return Abort; }
      FromWhere(term.kernel.ft.Now(), old(term.kernel.ft.fs.inodes[..]), old(term.kernel.ft.files[..]),
        term.kernel.ft.files[..], FileOf(Curr(s), fd), size, got.value);
      if got.value.FromDevice? {
        if got.value.dev == SERIAL_DEV {
          NothingYet(size);
          var line := Fill(size, []);
          return Done(line);
        }
        if got.value.dev != NULL_DEV { return Abort; }    // dev_get gives NULL
      }
      RefilesSelf(s);
      Record(s);
      return Done(InputOf(got.value));
    }

    // write: to a file, to the serial line, or to nowhere.
    method Write(fd: int, buf: seq<byte>) returns (r: Outcome<int>)
      requires Calling()
      modifies this`screen, this`events, this`log, Memory()
      ensures r.Abort? ==> var k := FileOf(Curr(old(Abs())), fd);
        NoDevice(old(term.kernel.ft.files[..]), k) || term.kernel.ft.NoBlock()
          || OffsetOf(old(term.kernel.ft.files[..]), k) + |buf| > MAX_FILE
      ensures r.Done? ==> Valid() && events == old(events) + [FiledAs(Abs())]
      ensures r.Done? ==>
        WritesAs(old(term.kernel.ft.Now()), term.kernel.ft.Now(), old(term.kernel.ft.fs.inodes[..]),
          old(term.kernel.ft.files[..]), term.kernel.ft.files[..], FileOf(Curr(old(Abs())), fd), buf, old(screen),
          screen, r.value)
    {
      hide ProcTables.ProcTable.Abs, ProcTables.ProcTable.Table, ProcTables.ProcTable.Sems, UsemOf,
        SystemCalls.Kernel.Valid, Serial.Port.Valid, Book, Step, LogStep, OpenFiles.FileTable.Now, Exhausted, WithFile,
        Refiles, Moved, Refiled, Target, IsDirectory, SystemCalls.Kernel.Here, FiledAs, Reads, Writes, WritesAs,
        OpenFiles.FileTable.NoBlock, OpenDirNamed, Unlinks, Refuses, FileOf, Inodes.Fs.Valid, Inodes.Fs.F, Torn;
      ghost var s := Abs();
      CallFacts();
      CurrIs();
      var w := term.kernel.SysWrite(fd, buf);
      if w.Abort? { return Abort; }
      ToWhere(old(term.kernel.ft.Now()), term.kernel.ft.Now(), old(term.kernel.ft.fs.inodes[..]),
        old(term.kernel.ft.files[..]), term.kernel.ft.files[..], FileOf(Curr(s), fd), buf, w.value, old(screen));
      if w.value.ToDevice? {
        if w.value.dev == SERIAL_DEV { screen := screen + buf; }
        if w.value.dev >= DEV_NUM { return Abort; }    // dev_get gives NULL
      }
      RefilesSelf(s);
      Record(s);
      return Done(if w.value.ToDevice? then |buf| else w.value.n);
    }

    // unlink; afterwards the books may be torn, because a directory that is open has gone.
    method Unlink(path: seq<byte>) returns (r: Outcome<int>, torn: bool)
      requires Calling() && 0 !in path
      modifies this`events, this`log, Memory()
      ensures r.Abort? ==> Exhausted(term.kernel.ft.fs, old(term.kernel.ft.Now()))
      ensures r.Done? && !torn ==> Valid() && events == old(events) + [FiledAs(Abs())]
      ensures torn <==>
        r == Done(0)
        && OpenDirNamed(old(term.kernel.ft.Now()), old(term.kernel.ft.fs.inodes[..]), path, old(term.kernel.Here()))
      ensures torn ==> !term.kernel.Valid()
    {
      hide ProcTables.ProcTable.Abs, ProcTables.ProcTable.Table, ProcTables.ProcTable.Sems, UsemOf,
        SystemCalls.Kernel.Valid, Serial.Port.Valid, Book, Step, LogStep, OpenFiles.FileTable.Now, Exhausted, WithFile,
        Refiles, Moved, Refiled, Target, IsDirectory, SystemCalls.Kernel.Here, FiledAs, Reads, Writes, WritesAs,
        OpenFiles.FileTable.NoBlock, OpenDirNamed, Unlinks, Refuses, FileOf, Inodes.Fs.Valid, Inodes.Fs.F, Torn;
      ghost var s := Abs();
      CallFacts();
      CurrIs();
      ghost var j;
      r, j := term.kernel.SysUnlink(path);
      if r.Abort? { return Abort, false; }
      torn := false;
      if r.value == 0 {
        TornIs(old(term.kernel.ft.Now()), old(term.kernel.ft.fs.inodes[..]), path, old(term.kernel.Here()), j);
        torn := Torn(term.kernel.ft.fs.inodes[..]);
        if torn { return; }
      }
      RefilesSelf(s);
      Record(s);
    }

    // After an unlink, the slots tell whether it was a directory in use.
    lemma TornIs(f: seq<File>, t: seq<Inode>, path: seq<byte>, here: nat, j: int)
      requires var fs := term.kernel.ft.fs;
        fs.Valid() && Unlinks(f, fs.F(), t, fs.inodes[..], path, here, j) && !Refuses(f, path, here)
      requires term.kernel.Valid() <==> !OpenDirNamed(f, t, path, here)
      ensures Torn(term.kernel.ft.fs.inodes[..]) <==> OpenDirNamed(f, t, path, here)
    {
      hide SystemCalls.Kernel.Valid, Inodes.Fs.Valid, Inodes.Fs.F, OpenDirNamed, Unlinks, Refuses;
      var fs := term.kernel.ft.fs;
      if term.kernel.Valid() { NotTorn(); }
      else { UnlinkTears(fs, f, t, path, here, j); }
    }

    lemma NotTorn()
      requires term.kernel.Valid()
      ensures !Torn(term.kernel.ft.fs.inodes[..])
    {
      hide ProcTables.ProcTable.Wellformed, Inv, Tidy, FdCounts, Cwds, Writers, Accounted, Kinds, System, Inodes.Fs.F,
        Inodes.Fs.Valid;
      var fs := term.kernel.ft.fs;
      var t := fs.inodes[..];
      forall l: nat | l < |t| && t[l].ref >= 1 && t[l].dinode.typ == TYPE_DIR ensures !t[l].del {
        SizeIsData(fs, l);
        fs.Sound();
        DirNotUnlinked(fs.F(), t, l);
      }
    }

    // Back from the schedule inside the kernel: a wait, a semaphore, or a read of the serial line.
    method Go() returns (line: Input, r: Ret, code: int)
      requires Valid() && Enabled(Abs(), ResumeCall)
      modifies this`readers, this`events, this`log, Memory()
      ensures Valid() && GotMore(old(events) + [ResumeCall], events)
        && term.kernel.ft.Now() == old(term.kernel.ft.Now())
      ensures old(InRead()) ==> old(Abs().curr) in old(readers)
      ensures old(InRead()) ==>
        GoesOn(line, old(readers), readers, old(Abs().curr), old(term.port.given), term.port.given)
      ensures !old(InRead()) ==> line == NoInput && readers == old(readers)
      ensures !old(InRead()) ==> term.port.given == old(term.port.given) && events == old(events) + [ResumeCall]
      ensures !old(InRead()) ==> Abs() == Step(old(Abs()), ResumeCall)
      ensures !old(InRead()) ==> WentOn(Curr(old(Abs())).kont, old(log), log, r, code)
    {
      hide ProcTables.ProcTable.Abs, ProcTables.ProcTable.Table, ProcTables.ProcTable.Sems, UsemOf,
        SystemCalls.Kernel.Valid, Serial.Port.Valid, Book, LogStep, Step, OpenFiles.FileTable.Now, WantsMore,
        WithinLine, Enabled, GoesOn, Slept, Gets, Inv, Books, Pids, WaitGives, WentOn;
      ghost var s := Abs();
      KontAt();
      if term.kernel.procs.pcb[term.kernel.procs.curr].kont == InSem(SERIAL) {
        line := GoOnReading();
        return line, Away, 0;
      }
      BookStep(s, ResumeCall, term.port.Sem(), readers, cwd, events, log);
      BookPids(s, term.port.Sem(), readers, cwd, events, log);
      events, log := events + [ResumeCall], LogStep(s, ResumeCall, log);
      r, code := term.kernel.Continue();
      GotNothing(events);
      GoneOnTells(s, old(log), r, code);
      return NoInput, r, code;
    }

    // The running process is one that slept in serial_read.
    ghost predicate InRead()
      reads this, Memory()
    {
      Abs().curr < |Abs().pcb| && Curr(Abs()).kont == InSem(SERIAL)
    }

    method GoOnReading() returns (line: Input)
      requires Valid() && Enabled(Abs(), ResumeCall) && InRead()
      modifies this`readers, this`events, this`log, Memory()
      ensures Valid() && GotMore(old(events) + [ResumeCall], events) && old(Abs().curr) in old(readers)
      ensures term.kernel.ft.Now() == old(term.kernel.ft.Now())
      ensures GoesOn(line, old(readers), readers, old(Abs().curr), old(term.port.given), term.port.given)
    {
      hide ProcTables.ProcTable.Abs, Calling, Valid, WantsMore, WithinLine, GoesOn, Filled, InRead,
        OpenFiles.FileTable.Now;
      var p, rd, ch := WakeReader();
      OneMore(rd.count, rd.got, ch);
      ghost var es := events;
      line := Fill(rd.count, rd.got + [ch]);
      FilledOn(line, old(readers), readers, p, ch, old(term.port.given), term.port.given, es, events);
    }

    // The end of the sem_p of getchar, and the character.
    method WakeReader() returns (p: nat, rd: SerialRead, ch: char)
      requires Valid() && Enabled(Abs(), ResumeCall) && InRead()
      modifies this`readers, this`events, this`log, Memory()
      ensures Calling() && p == Abs().curr == old(Abs().curr) && p in old(readers) && rd == old(readers)[p]
      ensures WantsMore(rd.count, rd.got) && WithinLine(rd.count, rd.got)
      ensures readers == old(readers) - {p} && events == old(events) + [ResumeCall]
      ensures term.port.given == old(term.port.given) + [ch] && term.kernel.ft.Now() == old(term.kernel.ft.Now())
    {
      hide ProcTables.ProcTable.Abs, ProcTables.ProcTable.Table, ProcTables.ProcTable.Sems, UsemOf,
        SystemCalls.Kernel.Valid, Serial.Port.Valid, Book, LogStep, Step, OpenFiles.FileTable.Now, WantsMore,
        WithinLine, Enabled;
      ghost var s := Abs();
      CurrIs();
      BookResume(s, term.port.Sem(), readers, cwd, events, log);
      events, log := events + [ResumeCall], LogStep(s, ResumeCall, log);
      p := term.kernel.procs.curr;
      rd := readers[p];
      readers := readers - {p};
      ch := term.port.GetcharResume(p);
      var r, code := term.kernel.Continue();
    }

    // ---- any entry, and any run ----

    method Possible(e: Entry) returns (b: bool)
      requires Valid()
      ensures b <==> CanHappen(Abs(), e)
    {
      hide ProcTables.ProcTable.Abs, ProcTables.ProcTable.Sems, SystemCalls.Kernel.Valid, Serial.Port.Valid, Book;
      KontAt();
      var user := term.kernel.procs.pcb[term.kernel.procs.curr].kont == User;
      var path := if e.Open? || e.Chdir? || e.Unlink? then e.path else [];
      return (e.Go? == !user) && (term.kernel.procs.curr == 0 ==> e.Tick? || e.Typed?) && 0 !in path;
    }

    // One call about files.
    method CallFiles(e: Entry) returns (on: bool, ghost d: seq<Event>)
      requires Calling() && OnFiles(e) && CanHappen(Abs(), e)
      modifies this, Memory()
      ensures on ==> Valid() && events == old(events) + d && Logged(e, d, Abs())
      ensures !on ==> MayStop(e)
    {
      hide ProcTables.ProcTable.Abs, Valid, Filled, GoesOn, Keys, Gets, FiledAs, ReadsAs, WritesAs, OpenDirNamed,
        Exhausted, NoDevice, OnConsole, OpenFiles.FileTable.NoBlock, OpenFiles.FileTable.Now, InRead,
        OpenDone, FileOf, Refiled, OnlyMarkedGo, Marked, Target, IsDirectory, Seeks, FreeSlot, SystemCalls.Kernel.Here;
      on, d := true, [];
      match e {
      case Open(path, mode) =>
        var r := Open(path, mode);
        on, d := r.Done?, [FiledAs(Abs())];
      case Close(fd) =>
        var r := Close(fd);
        d := [FiledAs(Abs())];
      case Dup(fd) =>
        var r := Dup(fd);
        d := [FiledAs(Abs())];
      case Chdir(path) =>
        var r := Chdir(path);
        on, d := r.Done?, [FiledAs(Abs())];
      case Read(fd, size) =>
        var r := Read(fd, size);
        on := r.Done?;
        d := [FiledAs(Abs())];
        if on && GotMore(old(events), events) { d := GotThese(old(events), events); }
      case Write(fd, buf) =>
        var r := Write(fd, buf);
        on, d := r.Done?, [FiledAs(Abs())];
      case Lseek(fd, off, whence) =>
        var r := Lseek(fd, off, whence);
        d := [FiledAs(Abs())];
      case Unlink(path) =>
        var r, torn := Unlink(path);
        on, d := r.Done? && !torn, [FiledAs(Abs())];
      }
    }

    // One entry. The machine stops for want of space, on a read or write at the largest file size, or on
    // a device that is none; and the model stops when a directory in use has been unlinked.
    method Enter(e: Entry) returns (on: bool, ghost d: seq<Event>)
      requires Valid() && CanHappen(Abs(), e)
      modifies this, Memory()
      ensures on ==> Valid() && events == old(events) + d && Logged(e, d, Abs())
      ensures !on ==> MayStop(e)
    {
      hide ProcTables.ProcTable.Abs, Valid, Filled, GoesOn, Keys, Gets, FiledAs, ReadsAs, WritesAs, OpenDirNamed,
        Exhausted, NoDevice, OnConsole, OpenFiles.FileTable.NoBlock, OpenFiles.FileTable.Now, InRead;
      on, d := true, [];
      match e {
      case Tick => Tick(); d := [Yield];
      case Typed(keys) =>
        ghost var before := term.port.clapboard;
        Type(keys);
        d := Keys(term.port.clapboard - before);
      case Go =>
        var line, r, code := Go();
        d := GotNone(old(events), events);
      case Fork =>
        var r := Fork();
        d := [ForkCall];
      case Exit(code) => Exit(code); d := [ExitCall(code)];
      case Wait =>
        var r, code := Wait();
        d := [WaitCall];
      case SemOpen(v) =>
        var r := SemOpen(v);
        d := [SemOpenCall(v)];
      case SemP(id) =>
        var r := SemP(id);
        d := [SemPCall(id)];
      case SemV(id) =>
        var r := SemV(id);
        d := [SemVCall(id)];
      case SemClose(id) =>
        var r := SemClose(id);
        d := [SemCloseCall(id)];
      case _ => on, d := CallFiles(e);
      }
    }

    // Entry after entry; one that cannot happen is passed over. As long as the machine does not stop, the
    // books of files, processes and terminal balance, and the state is that of a run of ProcRuns from boot.
    method Run(entries: seq<Entry>) returns (n: nat, ghost states: seq<State>, ghost blocks: seq<seq<Event>>)
      requires Valid()
      modifies this, Memory()
      ensures n <= |entries| && (n < |entries| ==> MayStop(entries[n]))
      ensures n == |entries| ==> Valid() && events == old(events) + Flat(blocks)
      ensures n == |entries| ==> Trace(entries, n, states, blocks) && states[0] == old(Abs()) && states[n] == Abs()
    {
      hide ProcTables.ProcTable.Abs, Valid, Logged, CanHappen, StateAfter, Flat, Trace, MayStop;
      n, states, blocks := 0, [Abs()], [];
      FlatMore(events, [], []);
      TraceNone(entries, Abs());
      while n < |entries|
        invariant n <= |entries| && Valid() && events == old(events) + Flat(blocks)
        invariant Trace(entries, n, states, blocks) && |states| == n + 1 && states[0] == old(Abs())
          && states[n] == Abs()
      {
        var on;
        ghost var d;
        on, d := Turn(entries[n]);
        if !on { return; }
        FlatMore(old(events), blocks, d);
        TraceMore(entries, n, states, blocks, Abs(), d);
        n, states, blocks := n + 1, states + [Abs()], blocks + [d];
      }
    }

    // One entry, if it can happen.
    method Turn(e: Entry) returns (on: bool, ghost d: seq<Event>)
      requires Valid()
      modifies this, Memory()
      ensures on ==> Valid() && events == old(events) + d && Turned(old(Abs()), e, d, Abs())
      ensures !on ==> MayStop(e)
    {
      hide ProcTables.ProcTable.Abs, Valid, Logged, CanHappen, StateAfter, Runs, Init, MayStop;
      ghost var s, es, l := Abs(), events, log;
      Booked();
      var possible := Possible(e);
      if possible {
        on, d := Enter(e);
        if !on { return; }
        Booked();
        RunsOn(Init(cwd), NoLog(), es, s, l, d, Abs(), log);
      } else {
        on, d := true, [];
        assert es + d == es;
      }
    }

    lemma Booked()
      requires Valid()
      ensures Runs(Init(cwd), NoLog(), events, Abs(), log)
    {
      hide SystemCalls.Kernel.Valid, Serial.Port.Valid, Runs, Inv, Joined, Asked, Init;
    }

    // What the run so far has come to: no exit is lost or reported twice, and every character completed
    // and not fetched is announced once.
    lemma Accounts()
      requires Valid()
      ensures Inv(Abs()) && multiset(log.exits) == multiset(log.reaps) + Unreaped(Abs().pcb)
      ensures forall k, l | 0 <= k < l < |log.reaps| :: log.reaps[k].pid != log.reaps[l].pid
      ensures Announced(events) - Fetched(Init(cwd), events) == term.port.clapboard - term.port.head
      ensures term.port.intact ==> term.port.given <= term.port.typed.done
    {
      hide ProcTables.ProcTable.Abs, SystemCalls.Kernel.Valid, Inv, Joined, Asked, Runs, Init, Unreaped;
      ghost var s := Abs();
      ProcRuns.EveryRun(cwd, events, s, log);
      Console.EveryRun(cwd, events, s, log);
      LinesAgree(s, term.port.Sem(), LineAfter(Init(cwd), events, Serial.Line(0, [], [])));
    }
  }

  // Open file k is readable and is the serial line; or is a device that does not exist.
  predicate OnConsole(files: seq<OpenFile>, k: int) {
    0 <= k < |files| && files[k].readable && files[k].typ == TYPE_DEV && files[k].dev == SERIAL_DEV
  }

  predicate NoDevice(files: seq<OpenFile>, k: int) {
    0 <= k < |files| && files[k].typ == TYPE_DEV && files[k].dev >= DEV_NUM
  }

  // read returns -1 unless there is something; so does the null device.
  function InputOf(r: Reading): Input {
    match r
    case NotRead => NoInput
    case Read(data) => Bytes(data)
    case FromDevice(_) => NoInput
  }

  // What read returns from anything but the serial line.
  ghost predicate ReadsAs(f: seq<File>, t: seq<Inode>, files: seq<OpenFile>, files': seq<OpenFile>, k: int, size: nat,
      r: Input)
  {
    if k < 0 then r == NoInput && files' == files
    else if k < |files| && files[k].readable && files[k].typ != TYPE_DEV then
      r.Bytes? && Reads(f, t, files, files', k, size, Reading.Read(r.data))
    else r == NoInput && files' == files
  }

  lemma FromWhere(f: seq<File>, t: seq<Inode>, files: seq<OpenFile>, files': seq<OpenFile>, k: int, size: nat,
      r: Reading)
    requires if k < 0 then r == NotRead && files' == files else Reads(f, t, files, files', k, size, r)
    ensures OnConsole(files, k) <==> r == FromDevice(SERIAL_DEV)
    ensures r.FromDevice? && r.dev >= DEV_NUM ==> NoDevice(files, k)
    ensures r != FromDevice(SERIAL_DEV) ==> ReadsAs(f, t, files, files', k, size, InputOf(r))
  {}

  // What write does, and what the serial line shows afterwards.
  ghost predicate WritesAs(f: seq<File>, f': seq<File>, t: seq<Inode>, files: seq<OpenFile>, files': seq<OpenFile>,
      k: int, buf: seq<byte>, screen: seq<byte>, screen': seq<byte>, n: int)
  {
    if k < 0 then n == -1 && f' == f && files' == files && screen' == screen
    else if k < |files| && files[k].writable && files[k].typ == TYPE_DEV then
      n == |buf| && f' == f && files' == files
        && screen' == if files[k].dev == SERIAL_DEV then screen + buf else screen
    else Writes(f, f', t, files, files', k, buf, Written(n)) && screen' == screen
  }

  lemma ToWhere(f: seq<File>, f': seq<File>, t: seq<Inode>, files: seq<OpenFile>, files': seq<OpenFile>, k: int,
      buf: seq<byte>, w: Writing, screen: seq<byte>)
    requires if k < 0 then w == Written(-1) && f' == f
      && files' == files else Writes(f, f', t, files, files', k, buf, w)
    ensures w.ToDevice? && w.dev >= DEV_NUM ==> NoDevice(files, k)
    ensures WritesAs(f, f', t, files, files', k, buf, screen,
      if w == ToDevice(SERIAL_DEV) then screen + buf else screen, if w.ToDevice? then |buf| else w.n)
  {}

  lemma UnlinkTears(fs: Fs, f: seq<File>, t: seq<Inode>, path: seq<byte>, here: nat, j: int)
    requires fs.Valid() && Unlinks(f, fs.F(), t, fs.inodes[..], path, here, j) && !Refuses(f, path, here)
    requires OpenDirNamed(f, t, path, here)
    ensures Torn(fs.inodes[..])
  {
    hide LookupIno, Comps, LastName, Inodes.Fs.F, Inodes.Fs.Valid, Refuses, OpenDirNamed, EntrySet;
    fs.Sound();
    OpenDirMeans(f, fs.F(), t, fs.inodes[..], path, here, j);
    var i := LookupIno(f[ParentOf(f, path, here)].data, LastName(path));
    var t' := fs.inodes[..];
    assert t'[j].ref >= 1 && t'[j].del && t'[j].no == i;
    SizeIsData(fs, j);
    assert fs.F()[i].typ == f[i].typ;
  }

  // What can happen next: a process in user mode may make any call and be interrupted, the idle process
  // is only interrupted, and a process inside the kernel goes on there.
  predicate CanHappen(s: State, e: Entry) {
    && s.curr < |s.pcb|
    && (e.Go? <==> Curr(s).kont != User)
    && (s.curr == 0 ==> e.Tick? || e.Typed?)
    && (e.Open? || e.Chdir? || e.Unlink? ==> 0 !in e.path)
  }

  // Something can always happen, and a process in user mode is free to make any call.
  lemma NeverStuck(s: State, cwd: int)
    requires Inv(s)
    ensures CanHappen(s, Tick) || CanHappen(s, Go)
    ensures s.curr != 0 && Curr(s).kont == User ==>
      forall e: Entry | !e.Go? && (e.Open? || e.Chdir? || e.Unlink? ==> 0 !in e.path) :: CanHappen(s, e)
    ensures CanHappen(Init(cwd), Tick) && Step(Init(cwd), Yield).curr == 1
  {
    hide Core, Inv;
    CurrFacts(s);
    FirstSwitch(cwd);
  }

  // The first tick hands over to the first shell.
  lemma FirstSwitch(cwd: int)
    ensures Enabled(Init(cwd), Yield) && Step(Init(cwd), Yield).curr == 1
  {
    var s := Init(cwd);
    var t := s.pcb[0 := s.pcb[0].(status := Ready, kont := User)];
    assert t[1].status == Ready;
    assert NextReady(t, 1, |t|) == 1;
  }

  predicate OnFiles(e: Entry) { MayStop(e) || e.Close? || e.Dup? || e.Lseek? }

  predicate MayStop(e: Entry) { e.Open? || e.Chdir? || e.Read? || e.Write? || e.Unlink? }

  // The events of an entry that leads to state s.
  ghost predicate Logged(e: Entry, d: seq<Event>, s: State) {
    match e
    case Tick => d == [Yield]
    case Typed(_) => exists n: nat :: d == Keys(n)
    case Go => exists n: nat :: d == [ResumeCall] + Gets(n)
    case Fork => d == [ForkCall]
    case Exit(code) => d == [ExitCall(code)]
    case Wait => d == [WaitCall]
    case SemOpen(v) => d == [SemOpenCall(v)]
    case SemP(id) => d == [SemPCall(id)]
    case SemV(id) => d == [SemVCall(id)]
    case SemClose(id) => d == [SemCloseCall(id)]
    case Read(_, _) => d == [FiledAs(s)] || exists n: nat :: d == Gets(n)
    case _ => d == [FiledAs(s)]
  }

  lemma GotNothing(es: seq<Event>)
    ensures GotMore(es, es)
  {
    assert es == es + Gets(0);
  }

  lemma GotThese(es: seq<Event>, es': seq<Event>) returns (d: seq<Event>)
    requires GotMore(es, es')
    ensures es' == es + d && exists n: nat :: d == Gets(n)
  {
    var n: nat :| es' == es + Gets(n);
    d := Gets(n);
  }

  lemma GotNone(es: seq<Event>, es': seq<Event>) returns (d: seq<Event>)
    requires GotMore(es + [ResumeCall], es') || es' == es + [ResumeCall]
    ensures es' == es + d && exists n: nat :: d == [ResumeCall] + Gets(n)
  {
    if GotMore(es + [ResumeCall], es') {
      var n: nat :| es' == es + [ResumeCall] + Gets(n);
      d := [ResumeCall] + Gets(n);
      assert es' == es + d;
    } else {
      d := [ResumeCall];
      assert d == [ResumeCall] + Gets(0);
    }
  }

  // Where some events lead.
  function StateAfter(s: State, d: seq<Event>): State
    decreases |d|
  {
    if d == [] || !Enabled(s, d[0]) then s else StateAfter(Step(s, d[0]), d[1..])
  }

  lemma {:induction false} RunsOn(s0: State, l0: Log, es: seq<Event>, s: State, l: Log, d: seq<Event>, s': State,
      l': Log)
    requires Runs(s0, l0, es, s, l) && Runs(s0, l0, es + d, s', l')
    ensures s' == StateAfter(s, d)
    decreases |es| + |d|
  {
    hide Step, LogStep;
    if es != [] {
      assert (es + d)[0] == es[0] && (es + d)[1..] == es[1..] + d;
      RunsOn(Step(s0, es[0]), LogStep(s0, es[0], l0), es[1..], s, l, d, s', l');
    } else if d != [] {
      assert es + d == d && [] + d[1..] == d[1..];
      var t, m := Step(s, d[0]), LogStep(s, d[0], l);
      assert Runs(t, m, [], t, m);
      RunsOn(t, m, [], t, m, d[1..], s', l');
    } else {
      assert es + d == [];
    }
  }

  function Flat(blocks: seq<seq<Event>>): seq<Event> {
    if blocks == [] then [] else Flat(blocks[..|blocks| - 1]) + blocks[|blocks| - 1]
  }

  lemma FlatMore(es: seq<Event>, blocks: seq<seq<Event>>, d: seq<Event>)
    ensures es + Flat(blocks + [d]) == es + Flat(blocks) + d && es + Flat([]) == es
  {
    assert (blocks + [d])[..|blocks|] == blocks;
  }

  // From s to s' by entry e, if it can happen; otherwise it is passed over.
  ghost predicate Turned(s: State, e: Entry, d: seq<Event>, s': State) {
    if CanHappen(s, e) then Logged(e, d, s') && s' == StateAfter(s, d) else d == [] && s' == s
  }

  // The first n entries, one after the other.
  ghost predicate Trace(entries: seq<Entry>, n: nat, states: seq<State>, blocks: seq<seq<Event>>) {
    && n <= |entries| && |states| == n + 1 && |blocks| == n
    && forall i: nat | i < n :: Turned(states[i], entries[i], blocks[i], states[i + 1])
  }

  lemma TraceNone(entries: seq<Entry>, s: State)
    ensures Trace(entries, 0, [s], [])
  {}

  lemma TraceMore(entries: seq<Entry>, n: nat, states: seq<State>, blocks: seq<seq<Event>>, s: State, d: seq<Event>)
    requires Trace(entries, n, states, blocks) && n < |entries|
    requires Turned(states[n], entries[n], d, s)
    ensures Trace(entries, n + 1, states + [s], blocks + [d])
  {
    hide Turned;
    var states', blocks' := states + [s], blocks + [d];
    forall i: nat | i < n + 1
      ensures Turned(states'[i], entries[i], blocks'[i], states'[i + 1])
    {
      assert states'[i] == states[i];
      if i < n { assert states'[i + 1] == states[i + 1] && blocks'[i] == blocks[i]; }
    }
  }

  // Two lines joined to the same state agree.
  lemma LinesAgree(s: State, l: Serial.Line, l': Serial.Line)
    requires Joined(s, l) && Joined(s, l')
    ensures l.value == l'.value && |l.granted| == |l'.granted|
  {
    forall p: int ensures multiset(l.granted)[p] == multiset(l'.granted)[p] {}
    assert multiset(l.granted) == multiset(l'.granted);
    assert |multiset(l.granted)| == |l.granted| && |multiset(l'.granted)| == |l'.granted|;
  }

  lemma NothingYet(size: u32)
    ensures WithinLine(size, [])
  {}

  function Gets(n: nat): seq<Event> { seq(n, _ => GetcharCall) }

  ghost predicate GotMore(es: seq<Event>, es': seq<Event>) { exists n: nat :: es' == es + Gets(n) }

  // A slot in use holds a directory that has been unlinked.
  predicate Torn(t: seq<Inode>) {
    exists l | 0 <= l < |t| :: t[l].ref >= 1 && t[l].del && t[l].dinode.typ == TYPE_DIR
  }

  // A read that started out with start has got text: those characters are the last ones given.
  ghost predicate Filling(start: string, text: string, given: string, given': string, es: seq<Event>, es': seq<Event>) {
    start <= text && given' == given + text[|start|..] && es' == es + Gets(|text| - |start|)
  }

  lemma FillStart(start: string, given: string, es: seq<Event>)
    ensures Filling(start, start, given, given, es, es)
  {
    assert es + Gets(0) == es && given + [] == given;
  }

  lemma FillOne(start: string, text: string, ch: char, given: string, given': string, es: seq<Event>, es': seq<Event>)
    requires Filling(start, text, given, given', es, es')
    ensures Filling(start, text + [ch], given, given' + [ch], es, es' + [GetcharCall])
  {
    assert (text + [ch])[|start|..] == text[|start|..] + [ch];
    assert Gets(|text| - |start|) + [GetcharCall] == Gets(|text| - |start| + 1);
  }

  lemma FillSleeps(count: u32, start: string, text: string, readers: map<int, SerialRead>,
      readers': map<int, SerialRead>, p: int, given: string, given': string, es: seq<Event>, es': seq<Event>)
    requires Filling(start, text, given, given', es, es') && readers' == readers[p := SerialRead(count, text)]
    requires WantsMore(count, text) && WithinLine(count, text)
    ensures Filled(Asleep, count, start, readers, readers', p, given, given', es, es' + [GetcharCall])
    ensures GotMore(es, es' + [GetcharCall])
  {
    assert Gets(|text| - |start|) + [GetcharCall] == Gets(|text| - |start| + 1);
    assert Slept(readers, readers', p, count, start, text);
  }

  lemma FillEnds(count: u32, start: string, text: string, readers: map<int, SerialRead>, p: int, given: string,
      given': string, es: seq<Event>, es': seq<Event>)
    requires Filling(start, text, given, given', es, es') && WithinLine(count, text) && !WantsMore(count, text)
    ensures Filled(Line(text), count, start, readers, readers, p, given, given', es, es') && GotMore(es, es')
  {}

  lemma RoomLeft(count: u32, text: string)
    requires WantsMore(count, text)
    ensures |text| < count
  {}

  lemma OneMore(count: u32, text: string, ch: char)
    requires WantsMore(count, text) && WithinLine(count, text)
    ensures WithinLine(count, text + [ch])
  {}

  // What a read of count characters returns: as many as were asked for, or all up to the end of the line.
  predicate ReadOver(count: u32, text: string) {
    && (|text| == count || (0 < |text| < count && text[|text| - 1] == '\n'))
    && forall i: nat | i + 1 < |text| :: text[i] != '\n'
  }

  // The read of process p sleeps, having got text, which is less than was asked for and no whole line.
  ghost predicate Slept(readers: map<int, SerialRead>, readers': map<int, SerialRead>, p: int, count: u32,
      start: string, text: string)
  {
    readers' == readers[p := SerialRead(count, text)] && start <= text && |text| < count && '\n' !in text
  }

  // The read of process p, which had slept, ends, or sleeps again with more.
  ghost predicate GoesOn(line: Input, readers: map<int, SerialRead>, readers': map<int, SerialRead>, p: int,
      given: string, given': string)
    requires p in readers
  {
    var rd := readers[p];
    if line.Line? then
      && rd.got < line.text && ReadOver(rd.count, line.text)
      && given' == given + line.text[|rd.got|..] && readers' == readers - {p}
    else
      && line == Asleep
      && exists text: string ::
        Slept(readers - {p}, readers', p, rd.count, rd.got, text) && rd.got < text
          && given' == given + text[|rd.got|..]
  }

  // A read of count characters that starts out with start: it ends with a line or a part of one, or it
  // sleeps; the characters it got meanwhile are the next ones given.
  ghost predicate Filled(line: Input, count: u32, start: string, readers: map<int, SerialRead>,
      readers': map<int, SerialRead>, p: int, given: string, given': string, es: seq<Event>, es': seq<Event>)
  {
    if line.Line? then
      && start <= line.text && ReadOver(count, line.text)
      && given' == given + line.text[|start|..] && readers' == readers && es' == es + Gets(|line.text| - |start|)
    else
      && line == Asleep
      && exists text: string ::
        Slept(readers, readers', p, count, start, text) && given' == given + text[|start|..]
          && es' == es + Gets(|text| - |start| + 1)
  }

  lemma TextOn(got: string, ch: char, text: string, given: string)
    requires got + [ch] <= text
    ensures got < text && given + [ch] + text[|got + [ch]|..] == given + text[|got|..]
  {
    assert got + [ch] == text[..|got| + 1];
    assert text[|got|] == ch && got == text[..|got|];
    assert text[|got|..] == [ch] + text[|got| + 1..];
  }

  lemma LineOn(line: Input, readers: map<int, SerialRead>, readers': map<int, SerialRead>, p: int, ch: char,
      given: string, given': string, es: seq<Event>, es': seq<Event>)
    requires p in readers && line.Line?
    requires Filled(line, readers[p].count, readers[p].got + [ch], readers - {p}, readers', p, given + [ch], given', es,
      es')
    ensures GoesOn(line, readers, readers', p, given, given') && GotMore(es, es')
  {
    hide WithinLine, WantsMore, ReadOver;
    TextOn(readers[p].got, ch, line.text, given);
  }

  lemma SleepOn(line: Input, readers: map<int, SerialRead>, readers': map<int, SerialRead>, p: int, ch: char,
      given: string, given': string, es: seq<Event>, es': seq<Event>)
    requires p in readers && !line.Line?
    requires Filled(line, readers[p].count, readers[p].got + [ch], readers - {p}, readers', p, given + [ch], given', es,
      es')
    ensures GoesOn(line, readers, readers', p, given, given') && GotMore(es, es')
  {
    hide WithinLine, WantsMore, ReadOver;
    var rd, start := readers[p], readers[p].got + [ch];
    var text: string :| Slept(readers - {p}, readers', p, rd.count, start, text)
      && given' == given + [ch] + text[|start|..] && es' == es + Gets(|text| - |start| + 1);
    TextOn(rd.got, ch, text, given);
    assert Slept(readers - {p}, readers', p, rd.count, rd.got, text);
  }

  lemma FilledOn(line: Input, readers: map<int, SerialRead>, readers': map<int, SerialRead>, p: int, ch: char,
      given: string, given': string, es: seq<Event>, es': seq<Event>)
    requires p in readers
    requires Filled(line, readers[p].count, readers[p].got + [ch], readers - {p}, readers', p, given + [ch], given', es,
      es')
    ensures GoesOn(line, readers, readers', p, given, given') && GotMore(es, es')
  {
    hide WithinLine, WantsMore, ReadOver;
    hide Filled, GoesOn, Slept;
    if line.Line? { LineOn(line, readers, readers', p, ch, given, given', es, es'); }
    else { SleepOn(line, readers, readers', p, ch, given, given', es, es'); }
  }

  lemma AskedWants(s: State, readers: map<int, SerialRead>, p: int)
    requires Asked(s, readers) && p in readers
    ensures WantsMore(readers[p].count, readers[p].got) && WithinLine(readers[p].count, readers[p].got)
  {}

  // A process that was inside the kernel is not the idle one.
  lemma Awake(s: State)
    requires Enabled(s, ResumeCall)
    ensures s.curr != 0
  {}

  // At most the descriptors and the directory of the running process have changed.
  ghost predicate Refiles(s: State, s': State) {
    && s.curr < |s.pcb| == |s'.pcb| && s'.curr == s.curr && |Curr(s').files| == MAX_UFILE
    && s' == s.(pcb := s.pcb[s.curr := Curr(s).(files := Curr(s').files, cwd := Curr(s').cwd)])
  }

  lemma FilesStep(s: State, s': State)
    requires Refiles(s, s') && s.curr != 0 && Curr(s).kont == User
    ensures Enabled(s, FiledAs(s')) && Step(s, FiledAs(s')) == s' && FiledAs(s').FilesCall?
  {}

  lemma RefilesSelf(s: State)
    requires s.curr < |s.pcb| && |Curr(s).files| == MAX_UFILE
    ensures Refiles(s, s)
  {}

  lemma RefilesOne(s: State, fd: nat, k: int)
    requires s.curr < |s.pcb| && |Curr(s).files| == MAX_UFILE
    ensures Refiles(s, s.(pcb := WithFile(s.pcb, s.curr, fd, k)))
  {}

  lemma OpenRefiles(s: State, s': State, files: seq<OpenFile>, files': seq<OpenFile>, f: seq<File>, f': seq<File>,
      path: seq<byte>, here: nat, mode: Mode, t': seq<Inode>, got: Option<nat>, r: int)
    requires OpenDone(s, s', files, files', f, f', path, here, mode, t', got, r)
    requires s.curr < |s.pcb| && |Curr(s).files| == MAX_UFILE
    ensures Refiles(s, s')
  {
    hide Refiles, Opening, AllTaken, WithFile;
    var fd := FreeSlot(Curr(s).files, 0);
    RefilesSelf(s);
    if got.Some? { RefilesOne(s, fd, got.value); }
  }

  lemma RefiledOne(s: State, fd: int, k: int)
    requires s.curr < |s.pcb| && |Curr(s).files| == MAX_UFILE
    ensures Refiles(s, Refiled(s, fd, k))
  {}

  lemma RefilesMoved(s: State)
    requires s.curr < |s.pcb| && |Curr(s).files| == MAX_UFILE
    ensures forall cwd :: Refiles(s, Moved(s, cwd))
  {}

  lemma FirstBook(cwd: int)
    ensures Book(Init(cwd), Serial.Line(0, [], []), map[], cwd, [], NoLog())
  {
    InitInv(cwd);
    InitJoined(cwd);
    hide Inv, Joined;
  }

  lemma BookParts(s: State, l: Serial.Line, readers: map<int, SerialRead>, cwd: int, es: seq<Event>, log: Log)
    requires Book(s, l, readers, cwd, es, log)
    ensures Inv(s) && Joined(s, l) && Asked(s, readers) && Runs(Init(cwd), NoLog(), es, s, log)
  {}

  lemma BookWhole(s: State, l: Serial.Line, readers: map<int, SerialRead>, cwd: int, es: seq<Event>, log: Log)
    requires Inv(s) && Joined(s, l) && Asked(s, readers) && Runs(Init(cwd), NoLog(), es, s, log)
    ensures Book(s, l, readers, cwd, es, log)
  {}
}

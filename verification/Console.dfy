// getchar and the serial interrupt over the table of processes: the readers of kernel/src/serial.c are
// processes, and its semaphore is one the scheduler and the other semaphores know of.
module Console {
  import opened Procs
  import opened ProcInvariant
  import opened ProcSteps
  import opened ProcExit
  import opened ProcSems
  import opened ProcRuns
  import opened ProcFair
  import opened ProcTables
  import opened SystemCalls
  import Serial

  // ---- the semaphore of the line, as the process table has it ----

  // A process that a V has let through the sem_p of getchar, and that has not gone on yet.
  predicate LetThrough(p: Proc) { p.kont == InSem(SERIAL) && p.status != Blocked }

  // Exactly the processes let through are on the list, each once.
  ghost predicate Granted(pcb: seq<Proc>, granted: seq<int>) {
    forall p: int :: multiset(granted)[p] == if 0 <= p < |pcb| && LetThrough(pcb[p]) then 1 else 0
  }

  // The port's semaphore and that of the table are one.
  ghost predicate Joined(s: State, l: Serial.Line) {
    && |s.sems| == SEM_NUM && s.sems[SERIAL].sem == Sem(l.value, l.waiting)
    && Granted(s.pcb, l.granted)
  }

  // What a step of the processes does to the line: only getchar, and the interrupt, touch it.
  function LineStep(s: State, e: Event, l: Serial.Line): Serial.Line
    requires Enabled(s, e)
  {
    if e.GetcharCall? then
      if l.value == 0 then l.(waiting := l.waiting + [s.curr]) else l.(value := l.value - 1)
    else if e.KeyCall? then Serial.Raised(l)
    else if e.ResumeCall? && Curr(s).kont == InSem(SERIAL) then l.(granted := Serial.Without(l.granted, s.curr))
    else l
  }

  // ---- what steps leave alone ----

  // The same processes are in getchar, and let through, and the semaphore is as it was.
  ghost predicate SameReaders(s: State, s': State) {
    && |s'.pcb| == |s.pcb| && |s'.sems| == |s.sems| == SEM_NUM && s'.sems[SERIAL].sem == s.sems[SERIAL].sem
    && (forall p: nat | p < |s.pcb| :: LetThrough(s'.pcb[p]) <==> LetThrough(s.pcb[p]))
    && SameAskers(s.pcb, s'.pcb)
  }

  ghost predicate SameAskers(pcb: seq<Proc>, pcb': seq<Proc>) {
    |pcb'| == |pcb| && forall p: nat | p < |pcb| :: pcb'[p].kont == InSem(SERIAL) <==> pcb[p].kont == InSem(SERIAL)
  }

  lemma SameJoined(s: State, s': State, l: Serial.Line)
    requires Joined(s, l) && SameReaders(s, s')
    ensures Joined(s', l)
  {}

  lemma ScheduleReaders(s: State)
    requires s.curr < |s.pcb| && |s.sems| == SEM_NUM
    ensures SameReaders(s, Schedule(s))
  {}

  // Giving up the processor: by a process that is not in getchar, to go on outside getchar.
  lemma LeaveReaders(s: State, t: State, status: Status, k: Kont)
    requires s.curr < |s.pcb| && SameReaders(s, t) && t.curr == s.curr
    requires Curr(t).kont != InSem(SERIAL) && k != InSem(SERIAL)
    ensures SameReaders(s, Leave(t, status, k))
  {
    hide Schedule;
    ScheduleReaders(t.(pcb := t.pcb[t.curr := Curr(t).(status := status, kont := k)]));
  }

  lemma ForkReaders(s: State)
    requires Inv(s)
    ensures SameReaders(s, Fork(s))
  {
    hide Parents, ChildCounts, ZombieCounts, WaitQueues, SemQueues, SemRefs;
    var a := FirstUnused(s.pcb, 1);
    if a < |s.pcb| { assert s.pcb[a].status == Unused && s.pcb[a].kont == User; }
  }

  lemma ExitReaders(s: State, code: int)
    requires Inv(s) && Curr(s).kont == User
    ensures SameReaders(s, Exit(s, code))
  {
    hide Inv, Shape, Core, Zombies, Exit, ExitTable, Schedule, Exited, SameReaders;
    CurrFacts(s);
    CoreWhole(s.pcb, s.sems);
    ExitIs(s, code);
    ExitTableIs(s, code);
    var t := State(ExitTable(s, code), s.curr, s.nextPid, DropRefs(s.sems, Curr(s).usems));
    ExitedReaders(s, t);
    ScheduleReaders(t);
    ReadersTwice(s, t, Schedule(t));
  }

  lemma ReadersTwice(s: State, t: State, u: State)
    requires SameReaders(s, t) && SameReaders(t, u)
    ensures SameReaders(s, u)
  {}

  lemma ExitedReaders(s: State, t: State)
    requires s.curr < |s.pcb| && |s.sems| == SEM_NUM && Exited(s.pcb, t.pcb, s.curr, Curr(s).parent)
    requires WaitQueues(s.pcb) && t.sems == DropRefs(s.sems, Curr(s).usems)
    ensures SameReaders(s, t)
  {
    forall p: nat | p < |s.pcb| ensures LetThrough(t.pcb[p]) <==> LetThrough(s.pcb[p]) {
      if p != s.curr {
        assert t.pcb[p]
          == if p == Curr(s).parent then Signalled(Bereft(s.pcb[p], s.curr)) else Bereft(s.pcb[p], s.curr);
      }
    }
  }

  lemma ReapedReaders(s: State, s': State, z: nat)
    requires s.curr < |s.pcb| && |s.sems| == SEM_NUM && Konts(s.pcb)
    requires Reaped(s.pcb, s'.pcb, s.curr, z) && s' == s.(pcb := s'.pcb) && Curr(s).kont != InSem(SERIAL)
    ensures SameReaders(s, s')
  {
    assert s.pcb[z].kont == User;
  }

  lemma WaitReaders(s: State)
    requires Inv(s) && Curr(s).kont == User
    ensures SameReaders(s, Wait(s))
  {
    hide Inv, Shape, Core, Zombies, Leave, WaitEnd, Reaped, Konts;
    CurrFacts(s);
    CoreWhole(s.pcb, s.sems);
    var c := Curr(s);
    if c.childNum != 0 && c.zsem.value == 0 {
      var t := s.(pcb := s.pcb[s.curr := c.(zsem := c.zsem.(queue := c.zsem.queue + [s.curr]))]);
      LeaveReaders(s, t, Blocked, InWait);
    } else if c.childNum != 0 {
      var s1 := s.(pcb := s.pcb[s.curr := c.(zsem := c.zsem.(value := c.zsem.value - 1))]);
      WaitEndReaps(s, s1);
      ReapedReaders(s, WaitEnd(s1), FindZombie(s.pcb, s.curr, 0));
    }
  }

  lemma SemOpenReaders(s: State, value: int)
    requires Inv(s)
    ensures SameReaders(s, SemOpen(s, value))
  {
    hide Core, Inv, Shape, Zombies;
    CurrFacts(s);
    SerialTaken(s);
  }

  // P and V on any other semaphore.
  lemma PReaders(s: State, u: int)
    requires Inv(s) && Curr(s).kont == User && u != SERIAL
    ensures SameReaders(s, PSem(s, u))
  {
    hide Inv, Shape, Core, Zombies, Leave;
    CurrFacts(s);
    if 0 <= u < |s.sems| && s.sems[u].sem.value == 0 {
      var m := s.sems[u].sem;
      var t := s.(sems := s.sems[u := s.sems[u].(sem := m.(queue := m.queue + [s.curr]))]);
      LeaveReaders(s, t, Blocked, InSem(u));
    }
  }

  lemma VReaders(s: State, u: int)
    requires Inv(s) && u != SERIAL
    ensures SameReaders(s, VSem(s, u))
  {
    hide Inv, Shape, Core, Zombies, SemQueues;
    CurrFacts(s);
    CoreWhole(s.pcb, s.sems);
    if 0 <= u < |s.sems| && s.sems[u].sem.queue != [] { HeadFacts(s.pcb, s.sems, u); }
  }

  lemma ResumeReaders(s: State)
    requires Inv(s) && Curr(s).kont != User && Curr(s).kont != InSem(SERIAL)
    ensures SameReaders(s, Resume(s))
  {
    hide Inv, Shape, Core, Zombies, WaitEnd, Reaped, Konts;
    CurrFacts(s);
    CoreWhole(s.pcb, s.sems);
    if Curr(s).kont == InWait {
      assert s.pcb[s.curr := Curr(s).(zsem := Sem(Curr(s).zsem.value + Grant(Curr(s)) - 1, []))] == s.pcb;
      WaitEndReaps(s, s);
      ReapedReaders(s, WaitEnd(s), FindZombie(s.pcb, s.curr, 0));
    }
  }

  // A slot of a process never leads to the kernel's own semaphore.
  lemma SlotNotSerial(s: State, id: int)
    requires Inv(s)
    ensures UsemOf(Curr(s), id) != SERIAL
  {
    hide Inv;
    SlotFacts(s, id);
  }

  // Whatever processes do outside getchar, they cannot take or give a character's turn.
  lemma OtherReaders(s: State, e: Event)
    requires Inv(s) && Enabled(s, e) && !e.GetcharCall? && !e.KeyCall?
    requires e.ResumeCall? ==> Curr(s).kont != InSem(SERIAL)
    ensures SameReaders(s, Step(s, e))
  {
    hide Inv, Shape, Core, Zombies, Leave, Fork, Exit, Wait, SemOpen, PSem, VSem, Resume, SameReaders;
    CurrFacts(s);
    match e
    case Yield =>
      SameReadersSelf(s);
      LeaveReaders(s, s, Ready, User);
    case ForkCall => ForkReaders(s);
    case ExitCall(code) => ExitReaders(s, code);
    case WaitCall => WaitReaders(s);
    case SemOpenCall(v) => SemOpenReaders(s, v);
    case SemPCall(id) =>
      SlotNotSerial(s, id);
      PReaders(s, UsemOf(Curr(s), id));
    case SemVCall(id) =>
      SlotNotSerial(s, id);
      VReaders(s, UsemOf(Curr(s), id));
    case SemCloseCall(id) => CloseReaders(s, id);
    case FilesCall(files, cwd) => FilesReaders(s, files, cwd);
    case ResumeCall => ResumeReaders(s);
  }

  lemma SameReadersSelf(s: State)
    requires |s.sems| == SEM_NUM
    ensures SameReaders(s, s)
  {}

  lemma CloseReaders(s: State, id: int)
    requires s.curr < |s.pcb| && |s.sems| == SEM_NUM
    requires var u := UsemOf(Curr(s), id); u == NULL || 0 <= id < |Curr(s).usems|
    ensures SameReaders(s, SemClose(s, id))
  {}

  lemma FilesReaders(s: State, files: seq<int>, cwd: int)
    requires s.curr < |s.pcb| && |s.sems| == SEM_NUM
    ensures SameReaders(s, s.(pcb := s.pcb[s.curr := Curr(s).(files := files, cwd := cwd)]))
  {}

  // ---- the three steps that do touch the line ----

  lemma GetcharJoined(s: State, l: Serial.Line)
    requires Inv(s) && Joined(s, l) && Enabled(s, GetcharCall)
    ensures Joined(PSem(s, SERIAL), LineStep(s, GetcharCall, l))
  {
    hide Inv, Shape, Core, Zombies, Granted, Schedule;
    CurrFacts(s);
    var c' := Curr(s).(status := Blocked, kont := InSem(SERIAL));
    if l.value == 0 {
      var sems' := s.sems[SERIAL := s.sems[SERIAL].(sem := Sem(0, l.waiting + [s.curr]))];
      BlockedGranted(s.pcb, l.granted, s.curr, c');
      var t := s.(pcb := s.pcb[s.curr := c'], sems := sems');
      assert Joined(t, LineStep(s, GetcharCall, l));
      ScheduleReaders(t);
      SameJoined(t, Schedule(t), LineStep(s, GetcharCall, l));
      assert s.sems[SERIAL].sem.(queue := s.sems[SERIAL].sem.queue + [s.curr]) == Sem(0, l.waiting + [s.curr]);
    }
  }

  // getchar sleeps just when nothing is announced that is not promised.
  lemma GetcharIs(s: State, l: Serial.Line)
    requires Enabled(s, GetcharCall) && Joined(s, l)
    ensures Switches(s, GetcharCall) <==> l.value == 0
    ensures LineStep(s, GetcharCall, l)
      == if l.value == 0 then l.(waiting := l.waiting + [s.curr]) else l.(value := l.value - 1)
  {}

  lemma BlockedGranted(pcb: seq<Proc>, granted: seq<int>, c: nat, c': Proc)
    requires Granted(pcb, granted) && c < |pcb| && !LetThrough(pcb[c]) && !LetThrough(c')
    ensures Granted(pcb[c := c'], granted)
  {}

  lemma KeyJoined(s: State, l: Serial.Line)
    requires Inv(s) && Joined(s, l)
    ensures Joined(VSem(s, SERIAL), Serial.Raised(l))
  {
    hide Inv, Shape, Core, Zombies, Granted, SemQueues;
    CurrFacts(s);
    CoreWhole(s.pcb, s.sems);
    if l.waiting != [] {
      HeadFacts(s.pcb, s.sems, SERIAL);
      WokenGranted(s.pcb, l.granted, l.waiting[0]);
    }
  }

  lemma WokenGranted(pcb: seq<Proc>, granted: seq<int>, w: nat)
    requires Granted(pcb, granted) && w < |pcb| && pcb[w].status == Blocked && pcb[w].kont == InSem(SERIAL)
    ensures Granted(pcb[w := pcb[w].(status := Ready)], granted + [w])
  {
    assert multiset(granted + [w]) == multiset(granted) + multiset{w};
  }

  lemma GoneOnGranted(pcb: seq<Proc>, granted: seq<int>, c: nat)
    requires Granted(pcb, granted) && c < |pcb| && LetThrough(pcb[c])
    ensures c in granted && Granted(pcb[c := pcb[c].(kont := User)], Serial.Without(granted, c))
  {
    assert c in multiset(granted);
    Serial.WithoutOne(granted, c);
    var pcb' := pcb[c := pcb[c].(kont := User)];
    forall p: int
      ensures multiset(Serial.Without(granted, c))[p] == if 0 <= p < |pcb'| && LetThrough(pcb'[p]) then 1 else 0
    {
      assert multiset(granted)[p] == multiset(Serial.Without(granted, c))[p] + multiset{c}[p];
    }
  }

  lemma GoneOnJoined(s: State, l: Serial.Line)
    requires Inv(s) && Joined(s, l) && Curr(s).kont == InSem(SERIAL)
    ensures s.curr in l.granted && Joined(Resume(s), l.(granted := Serial.Without(l.granted, s.curr)))
  {
    hide Inv, Shape, Core, Zombies;
    CurrFacts(s);
    hide Granted;
    GoneOnGranted(s.pcb, l.granted, s.curr);
  }

  // ---- every step ----

  lemma JoinedStep(s: State, e: Event, l: Serial.Line)
    requires Inv(s) && Enabled(s, e) && Joined(s, l)
    ensures Joined(Step(s, e), LineStep(s, e, l))
  {
    hide Inv, Joined, PSem, VSem, Resume, SameReaders;
    if e.GetcharCall? {
      GetcharJoined(s, l);
    } else if e.KeyCall? {
      KeyJoined(s, l);
    } else if e.ResumeCall? && Curr(s).kont == InSem(SERIAL) {
      GoneOnJoined(s, l);
    } else {
      OtherReaders(s, e);
      SameJoined(s, Step(s, e), l);
    }
  }

  // ---- whole runs ----

  // A step in which a getchar gets past its sem_p, to fetch a character.
  predicate Fetches(s: State, e: Event)
    requires Enabled(s, e)
  {
    && SERIAL < |s.sems|
    && ((e.GetcharCall? && s.sems[SERIAL].sem.value != 0) || (e.ResumeCall? && Curr(s).kont == InSem(SERIAL)))
  }

  // The Vs of the interrupt in a run, the characters fetched in it, and the line after it.
  function Announced(es: seq<Event>): nat
    decreases |es|
  {
    if es == [] then 0 else (if es[0].KeyCall? then 1 else 0) + Announced(es[1..])
  }

  function Fetched(s: State, es: seq<Event>): nat
    decreases |es|
  {
    if es == [] || !Enabled(s, es[0]) then 0
    else (if Fetches(s, es[0]) then 1 else 0) + Fetched(Step(s, es[0]), es[1..])
  }

  function LineAfter(s: State, es: seq<Event>, l: Serial.Line): Serial.Line
    decreases |es|
  {
    if es == [] || !Enabled(s, es[0]) then l else LineAfter(Step(s, es[0]), es[1..], LineStep(s, es[0], l))
  }

  // What is announced and not fetched yet stands in the value or is promised to a process let through.
  lemma StepAccount(s: State, e: Event, l: Serial.Line)
    requires Inv(s) && Enabled(s, e) && Joined(s, l)
    ensures var l' := LineStep(s, e, l);
      l'.value + |l'.granted| + (if Fetches(s, e) then 1 else 0)
        == l.value + |l.granted| + (if e.KeyCall? then 1 else 0)
  {
    hide Inv;
    if e.ResumeCall? && Curr(s).kont == InSem(SERIAL) {
      hide Granted;
      GoneOnJoined(s, l);
      Serial.WithoutOne(l.granted, s.curr);
    }
  }

  lemma {:induction false} RunJoined(s: State, log: Log, es: seq<Event>, t: State, log': Log, l: Serial.Line)
    requires Inv(s) && Joined(s, l) && Runs(s, log, es, t, log')
    ensures Inv(t) && Joined(t, LineAfter(s, es, l))
    ensures var l' := LineAfter(s, es, l);
      l'.value + |l'.granted| + Fetched(s, es) == l.value + |l.granted| + Announced(es)
    decreases |es|
  {
    if es != [] {
      hide Inv, Joined, Step, LogStep, LineStep, Fetches;
      StepInv(s, es[0]);
      JoinedStep(s, es[0], l);
      StepAccount(s, es[0], l);
      RunJoined(Step(s, es[0]), LogStep(s, es[0], log), es[1..], t, log', LineStep(s, es[0], l));
    }
  }

  lemma InitJoined(cwd: int)
    ensures Joined(Init(cwd), Serial.Line(0, [], []))
  {}

  // From boot on, whatever processes do: the processes queued on the line, and those let through, are
  // the ones that getchar and the interrupt put there, in that order, and no announcement is lost.
  lemma EveryRun(cwd: int, es: seq<Event>, t: State, log: Log)
    requires Runs(Init(cwd), NoLog(), es, t, log)
    ensures var l := LineAfter(Init(cwd), es, Serial.Line(0, [], []));
      Joined(t, l) && Announced(es) == Fetched(Init(cwd), es) + l.value + |l.granted|
  {
    InitInv(cwd);
    InitJoined(cwd);
    hide Inv;
    RunJoined(Init(cwd), NoLog(), es, t, log, Serial.Line(0, [], []));
  }

  // Whenever a getchar gets past its sem_p, a character has been announced that nobody has fetched.
  lemma NeverEmptyHanded(cwd: int, es: seq<Event>, t: State, log: Log, e: Event)
    requires Runs(Init(cwd), NoLog(), es, t, log) && Enabled(t, e) && Fetches(t, e)
    ensures Announced(es) > Fetched(Init(cwd), es)
  {
    EveryRun(cwd, es, t, log);
    InitInv(cwd);
    InitBooks(cwd);
    RunKeeps(Init(cwd), NoLog(), es, t, log);
    hide Inv;
    if e.ResumeCall? { GoneOnJoined(t, LineAfter(Init(cwd), es, Serial.Line(0, [], []))); }
  }

  // A process asleep in getchar is not forgotten: every announced character that nobody has fetched is
  // promised to a process that is awake, one each.
  lemma NobodyForgotten(cwd: int, es: seq<Event>, t: State, log: Log, p: nat)
    requires Runs(Init(cwd), NoLog(), es, t, log)
    requires p < |t.pcb| && t.pcb[p].status == Blocked && t.pcb[p].kont == InSem(SERIAL)
    ensures exists awake: seq<int> :: Granted(t.pcb, awake) && |awake| == Announced(es) - Fetched(Init(cwd), es)
  {
    EveryRun(cwd, es, t, log);
    InitInv(cwd);
    InitBooks(cwd);
    RunKeeps(Init(cwd), NoLog(), es, t, log);
    hide Inv, Granted, Books, Runs, LineAfter, Fetched, Announced;
    QueuedHere(t, p);
    assert Granted(t.pcb, LineAfter(Init(cwd), es, Serial.Line(0, [], [])).granted);
  }

  lemma QueuedHere(s: State, p: nat)
    requires Inv(s) && p < |s.pcb| && s.pcb[p].status == Blocked && s.pcb[p].kont == InSem(SERIAL)
    ensures SERIAL < |s.sems| && p in s.sems[SERIAL].sem.queue && s.sems[SERIAL].sem.value == 0
  {
    hide Parents, ChildCounts, ZombieCounts, WaitQueues, Konts, SemRefs;
  }

  // ---- the running system ----

  // n keys announced.
  function Keyed(s: State, n: nat): State { if n == 0 then s else VSem(Keyed(s, n - 1), SERIAL) }

  // The interrupt leaves the running process where it is.
  lemma KeyAgain(s: State)
    requires Inv(s) && Enabled(s, KeyCall)
    ensures Enabled(Step(s, KeyCall), KeyCall)
  {
    hide Inv, Shape, Core, Zombies, SemQueues;
    CurrFacts(s);
    CoreWhole(s.pcb, s.sems);
    if s.sems[SERIAL].sem.queue != [] { HeadFacts(s.pcb, s.sems, SERIAL); }
  }

  class Terminal {
    const kernel: Kernel
    const port: Serial.Port

    constructor (kernel: Kernel, ghost cwd: int)
      requires kernel.Valid() && kernel.procs.Abs() == Init(cwd)
      ensures Valid() && this.kernel == kernel && fresh(port)
      ensures port.typed == Serial.Typed([], []) && port.given == [] && port.intact && fresh(port.buffer)
      ensures port.Sem() == Serial.Line(0, [], [])
    {
      hide SystemCalls.Kernel.Valid, Init, Joined;
      this.kernel := kernel;
      port := new Serial.Port();
      new;
      InitJoined(cwd);
    }

    ghost predicate Apart() {
      var procs, ft := kernel.procs, kernel.ft;
      var files: set<object> := {ft, ft.files, ft.fs, ft.fs.inodes, ft.fs.disk, ft.fs.disk.sectors, ft.fs.disk.cache};
      var table: set<object> :=
        {procs, procs.pcb, procs.userSem, procs.lists, procs.lists.prev, procs.lists.next, procs.lists.item};
      var mine: set<object> := {this, port, port.buffer};
      mine !! files && mine !! table && kernel !in mine
    }

    // One semaphore: that of the port is entry SERIAL of the kernel's.
    ghost predicate Valid()
      reads this, kernel, kernel.procs, kernel.procs.pcb, kernel.procs.userSem, kernel.procs.lists,
        kernel.procs.lists.prev, kernel.procs.lists.next, kernel.procs.lists.item, kernel.ft, kernel.ft.files,
        kernel.ft.fs, kernel.ft.fs.disk, kernel.ft.fs.disk.sectors, kernel.ft.fs.disk.cache, kernel.ft.fs.inodes,
        port, port.buffer
    {
      Apart() && kernel.Valid() && port.Valid() && Joined(kernel.procs.Abs(), port.Sem())
    }

    // serial_handle: the characters that have arrived, and a V for each one completed.
    method Interrupt(keys: string)
      requires Valid() && Enabled(kernel.procs.Abs(), KeyCall)
      modifies port, port.buffer, kernel.procs.pcb, kernel.procs.userSem, kernel.procs.lists`lists,
        kernel.procs.lists`home, kernel.procs.lists.prev, kernel.procs.lists.next
      ensures Valid() && port.typed == Serial.Burst(old(port.typed), keys) && port.given == old(port.given)
      ensures port.intact ==> old(port.intact)
      ensures old(port.clapboard) <= port.clapboard
      ensures kernel.procs.Abs() == Keyed(old(kernel.procs.Abs()), port.clapboard - old(port.clapboard))
      ensures Enabled(kernel.procs.Abs(), KeyCall) && kernel.ft.Now() == old(kernel.ft.Now())
    {
      hide SystemCalls.Kernel.Valid, Serial.Port.Valid, Joined, Enabled, Inv, VSem, OpenFiles.FileTable.Now;
      var before := port.clapboard;
      port.SerialHandle(keys);
      Announce(port.clapboard - before, port.Sem(), old(port.Sem()));
    }

    // The n Vs of the interrupt.
    method Announce(n: nat, ghost l': Serial.Line, ghost l: Serial.Line)
      requires kernel.Valid() && Enabled(kernel.procs.Abs(), KeyCall) && Joined(kernel.procs.Abs(), l)
      requires l' == Serial.Vs(l, n)
      modifies kernel.procs.pcb, kernel.procs.userSem, kernel.procs.lists`lists, kernel.procs.lists`home,
        kernel.procs.lists.prev, kernel.procs.lists.next
      ensures kernel.Valid() && kernel.procs.Abs() == Keyed(old(kernel.procs.Abs()), n)
      ensures Joined(kernel.procs.Abs(), l')
      ensures Enabled(kernel.procs.Abs(), KeyCall) && kernel.ft.Now() == old(kernel.ft.Now())
    {
      hide SystemCalls.Kernel.Valid, Joined, Enabled, Inv, VSem, OpenFiles.FileTable.Now, Serial.Raised;
      ghost var s := kernel.procs.Abs();
      for i := 0 to n
        invariant kernel.Valid() && kernel.procs.Abs() == Keyed(s, i) && Joined(Keyed(s, i), Serial.Vs(l, i))
        invariant Enabled(kernel.procs.Abs(), KeyCall) && kernel.ft.Now() == old(kernel.ft.Now())
      {
        KernelInv();
        JoinedStep(Keyed(s, i), KeyCall, Serial.Vs(l, i));
        KeyAgain(Keyed(s, i));
        kernel.Key();
      }
    }

    lemma KernelInv()
      requires kernel.Valid()
      ensures Inv(kernel.procs.Abs())
    {
      hide Inv;
    }

    // getchar by the running process: a character at once, or to sleep until one is announced.
    method Getchar() returns (r: Serial.Took)
      requires Valid() && Enabled(kernel.procs.Abs(), GetcharCall)
      modifies port, kernel.procs`curr, kernel.procs.pcb, kernel.procs.userSem, kernel.procs.lists`lists,
        kernel.procs.lists`home, kernel.procs.lists.prev, kernel.procs.lists.next, kernel.procs.lists.item
      ensures Valid() && kernel.procs.Abs() == Step(old(kernel.procs.Abs()), GetcharCall)
      ensures port.typed == old(port.typed) && port.intact == old(port.intact)
      ensures r == Serial.Waiting <==> Switches(old(kernel.procs.Abs()), GetcharCall)
      ensures r == Serial.Waiting ==> port.given == old(port.given)
      ensures r.Char? ==> port.given == old(port.given) + [r.ch] && r.ch != Serial.NUL
      ensures kernel.ft.Now() == old(kernel.ft.Now())
    {
      hide SystemCalls.Kernel.Valid, Serial.Port.Valid, Inv, Step, Joined, Switches, LineStep, Enabled,
        OpenFiles.FileTable.Now;
      ghost var s, l := kernel.procs.Abs(), port.Sem();
      KernelInv();
      JoinedStep(s, GetcharCall, l);
      GetcharIs(s, l);
      r := port.Getchar(kernel.procs.curr);
      var away := kernel.Getchar();
    }

    // Back from the schedule inside the kernel, whoever it is: a process let through in getchar gets
    // a character that was completed and that nobody else got.
    method Continue() returns (ch: char, r: Ret, code: int)
      requires Valid() && Enabled(kernel.procs.Abs(), ResumeCall)
      modifies port, kernel.procs`curr, kernel.procs.pcb
      ensures Valid() && kernel.procs.Abs() == Step(old(kernel.procs.Abs()), ResumeCall)
      ensures port.typed == old(port.typed) && port.intact == old(port.intact)
      ensures Curr(old(kernel.procs.Abs())).kont == InSem(SERIAL) ==>
        port.given == old(port.given) + [ch] && ch != Serial.NUL
      ensures Curr(old(kernel.procs.Abs())).kont != InSem(SERIAL) ==> port.given == old(port.given)
      ensures kernel.ft.Now() == old(kernel.ft.Now())
    {
      hide SystemCalls.Kernel.Valid, Serial.Port.Valid, Inv, Joined, Resume, OpenFiles.FileTable.Now;
      ghost var s, l := kernel.procs.Abs(), port.Sem();
      KernelInv();
      JoinedStep(s, ResumeCall, l);
      ch := Serial.NUL;
      if kernel.procs.pcb[kernel.procs.curr].kont == InSem(SERIAL) {
        GoneOnJoined(s, l);
        ch := port.GetcharResume(kernel.procs.curr);
      }
      r, code := kernel.Continue();
    }

    // Every other system call keeps the terminal as it is.
    lemma Others(s: State, e: Event)
      requires Apart() && kernel.Valid() && port.Valid() && Inv(s) && Enabled(s, e) && Joined(s, port.Sem())
      requires kernel.procs.Abs() == Step(s, e) && !e.GetcharCall? && !e.KeyCall?
      requires e.ResumeCall? ==> Curr(s).kont != InSem(SERIAL)
      ensures Valid()
    {
      hide Inv, Joined, Step, SystemCalls.Kernel.Valid, Serial.Port.Valid;
      JoinedStep(s, e, port.Sem());
    }
  }
}

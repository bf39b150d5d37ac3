// Whole runs of the kernel: what holds after any number of steps from the initial state.
module ProcRuns {
  import opened Bags
  import opened Procs
  import opened ProcInvariant
  import opened ProcSteps
  import opened ProcExit
  import opened ProcSems

  // main.c: entry 0 is the idle loop, entry 1 the first shell; both stand in the root directory.
  function Idle(cwd: int): Proc {
    Proc(0, Running, NULL, 0, 0, Sem(0, []), NoSlots(MAX_USEM), NoSlots(MAX_UFILE), cwd, User)
  }

  function Blank(): Proc {
    Proc(0, Unused, NULL, 0, 0, Sem(0, []), NoSlots(MAX_USEM), NoSlots(MAX_UFILE), NULL, User)
  }

  function Init(cwd: int): State {
    var shell := Blank().(pid := 1, status := Ready, cwd := cwd);
    State([Idle(cwd), shell] + seq(PROC_NUM - 2, _ => Blank()), 0, 2,
      seq(USER_SEM_NUM, _ => USem(Sem(0, []), 0)) + [USem(Sem(0, []), 1)])
  }

  lemma InitInv(cwd: int)
    ensures Inv(Init(cwd))
  {
    hide Children, Zombies, UsemSlots;
    InitCounts(cwd);
  }

  lemma InitCounts(cwd: int)
    ensures var s := Init(cwd);
      && (forall q: nat | q < |s.pcb| :: Children(s.pcb)[q] == 0 && Zombies(s.pcb)[q] == 0)
      && (forall u: nat | u < |s.sems| :: UsemSlots(s.pcb)[u] == 0)
  {
    var s := Init(cwd);
    forall q: nat | q < |s.pcb| ensures Children(s.pcb)[q] == 0 && Zombies(s.pcb)[q] == 0 {
      BagNone(s.pcb, ParentKey, q);
      BagNone(s.pcb, ZombieKey, q);
    }
    forall u: nat | u < |s.sems| ensures UsemSlots(s.pcb)[u] == 0 {
      NoSlotsEmpty(MAX_USEM, u);
      BagNone(s.pcb, UsemKey, u);
    }
  }

  lemma FilesInv(s: State, files: seq<int>, cwd: int)
    requires Inv(s)
    ensures Inv(s.(pcb := s.pcb[s.curr := Curr(s).(files := files, cwd := cwd)]))
  {
    hide Inv, Core, Shape, Parents, ChildCounts, ZombieCounts, WaitQueues, Konts, SemQueues, SemRefs, UsemSlots,
      Zombies;
    CurrFacts(s);
    CoreWhole(s.pcb, s.sems);
    var c' := Curr(s).(files := files, cwd := cwd);
    assert Quiet(Curr(s), c');
    hide Quiet;
    QuietCounts(s.pcb, s.curr, c');
    SlotsKept(s.pcb, s.curr, c');
    FilesQueues(s.pcb, s.sems, s.curr, files, cwd);
    CoreParts(s.pcb[s.curr := c'], s.sems);
    SlotShape(s, c', s.sems);
    InvParts(s.(pcb := s.pcb[s.curr := c']));
  }

  lemma FilesQueues(pcb: seq<Proc>, sems: seq<USem>, c: nat, files: seq<int>, cwd: int)
    requires WaitQueues(pcb) && Konts(pcb) && SemQueues(pcb, sems) && SemRefs(pcb, sems) && c < |pcb|
    requires UsemSlots(pcb[c := pcb[c].(files := files, cwd := cwd)]) == UsemSlots(pcb)
    ensures var pcb' := pcb[c := pcb[c].(files := files, cwd := cwd)];
      WaitQueues(pcb') && Konts(pcb') && SemQueues(pcb', sems) && SemRefs(pcb', sems)
  {
    hide UsemSlots;
    var pcb' := pcb[c := pcb[c].(files := files, cwd := cwd)];
    assert WaitQueues(pcb') && Konts(pcb') by { hide SemQueues, SemRefs; }
    assert SemQueues(pcb', sems) by { hide WaitQueues, SemRefs, Konts; }
    assert SemRefs(pcb', sems) by { hide WaitQueues, SemQueues, Konts; }
  }

  // One step keeps the invariant.
  lemma StepInv(s: State, e: Event)
    requires Inv(s) && Enabled(s, e)
    ensures Inv(Step(s, e))
  {
    hide Inv, Leave, Fork, Exit, Wait, SemOpen, SemP, SemV, PSem, VSem, SemClose, Resume;
    SerialMine(s);
    match e
    case Yield => YieldInv(s);
    case ForkCall => ForkInv(s);
    case ExitCall(code) => ExitInv(s, code);
    case WaitCall => WaitInv(s);
    case SemOpenCall(v) => SemOpenInv(s, v);
    case SemPCall(id) => SemPInv(s, id);
    case SemVCall(id) => SemVInv(s, id);
    case SemCloseCall(id) => SemCloseInv(s, id);
    case GetcharCall => PInv(s, SERIAL);
    case KeyCall => VInv(s, SERIAL);
    case FilesCall(files, cwd) => FilesInv(s, files, cwd);
    case ResumeCall => ResumeInv(s);
  }

  // ---- histories ----

  datatype Gone = Gone(pid: int, code: int)

  // What a run has shown so far: exits in order, waits that returned in order, and for every user
  // semaphore its opening value plus the Vs minus the Ps that were let through.
  datatype Log = Log(exits: seq<Gone>, reaps: seq<Gone>, balance: seq<int>)

  function NoLog(): Log { Log([], [], seq(SEM_NUM, _ => 0)) }

  // The child a step reaps, |pcb| if none.
  function ReapedBy(s: State, e: Event): nat
    requires Enabled(s, e)
  {
    var c := Curr(s);
    if (e.WaitCall? && c.childNum != 0 && c.zsem.value != 0) || (e.ResumeCall? && !c.kont.InSem?)
    then FindZombie(s.pcb, s.curr, 0) else |s.pcb|
  }

  // The semaphore an operation acts on, NULL if none.
  function ActsOn(s: State, e: Event): int
    requires Enabled(s, e)
  {
    match e
    case SemPCall(id) => UsemOf(Curr(s), id)
    case SemVCall(id) => UsemOf(Curr(s), id)
    case GetcharCall => SERIAL
    case KeyCall => SERIAL
    case _ => NULL
  }

  function LogStep(s: State, e: Event, log: Log): Log
    requires Enabled(s, e)
  {
    var z, u := ReapedBy(s, e), ActsOn(s, e);
    var exits := if e.ExitCall? then log.exits + [Gone(Curr(s).pid, e.code)] else log.exits;
    var reaps := if z < |s.pcb| then log.reaps + [Gone(s.pcb[z].pid, s.pcb[z].exitCode)] else log.reaps;
    var balance :=
      if e.SemOpenCall? && FreeSlot(Curr(s).usems, 0) < |Curr(s).usems| && FreeSem(s.sems, 0) < |log.balance|
      then log.balance[FreeSem(s.sems, 0) := e.value]
      else if 0 <= u < |log.balance| && u < |s.sems| then
        var b := log.balance[u];
        if e.SemVCall? || e.KeyCall? then
          // a V that finds somebody waiting lets that P through
          log.balance[u := b + 1 - (if s.sems[u].sem.queue != [] then 1 else 0)]
        else
          // a P is let through now unless it has to wait
          log.balance[u := b - (if s.sems[u].sem.value != 0 then 1 else 0)]
      else log.balance;
    Log(exits, reaps, balance)
  }

  function ZombieRec(p: Proc): multiset<Gone> {
    if p.status == Zombie then multiset{Gone(p.pid, p.exitCode)} else multiset{}
  }

  function Unreaped(pcb: seq<Proc>): multiset<Gone> { Bag(pcb, ZombieRec) }

  // Process ids are never given twice.
  ghost predicate Pids(s: State, log: Log) {
    && (forall i: nat | i < |s.pcb| && Alive(s.pcb[i]) :: 0 <= s.pcb[i].pid < s.nextPid)
    && (forall i: nat, j: nat | i < j < |s.pcb| && Alive(s.pcb[i]) && Alive(s.pcb[j]) :: s.pcb[i].pid != s.pcb[j].pid)
    && (forall k | 0 <= k < |log.exits| :: 0 <= log.exits[k].pid < s.nextPid)
    && (forall k, l | 0 <= k < l < |log.exits| :: log.exits[k].pid != log.exits[l].pid)
    && (forall i: nat, k | i < |s.pcb| && Alive(s.pcb[i]) && 0 <= k < |log.exits| :: s.pcb[i].pid != log.exits[k].pid)
  }

  // Every exit is either reaped, once and with its own code, or still there as a zombie.
  ghost predicate ExitBooks(s: State, log: Log) {
    multiset(log.exits) == multiset(log.reaps) + Unreaped(s.pcb)
  }

  ghost predicate SemBooks(s: State, log: Log) {
    && |log.balance| == |s.sems|
    && forall u: nat | u < |s.sems| && s.sems[u].ref > 0 :: s.sems[u].sem.value == log.balance[u]
  }

  ghost predicate Books(s: State, log: Log) {
    Pids(s, log) && ExitBooks(s, log) && SemBooks(s, log)
  }

  // ---- the books, step by step ----

  lemma UnreapedUpdate(pcb: seq<Proc>, i: nat, x: Proc)
    requires i < |pcb|
    ensures ZombieRec(pcb[i]) <= Unreaped(pcb)
    ensures Unreaped(pcb[i := x]) == Unreaped(pcb) - ZombieRec(pcb[i]) + ZombieRec(x)
  {
    BagUpdate(pcb, ZombieRec, i, x);
  }

  // Nobody is born, dies or is reaped.
  ghost predicate Calm(pcb: seq<Proc>, pcb': seq<Proc>) {
    && |pcb'| == |pcb|
    && forall i: nat | i < |pcb| ::
      pcb'[i].pid == pcb[i].pid && pcb'[i].exitCode == pcb[i].exitCode
      && (pcb'[i].status == Zombie <==> pcb[i].status == Zombie) && (Alive(pcb'[i]) <==> Alive(pcb[i]))
  }

  lemma ScheduleCalm(s: State)
    requires s.curr < |s.pcb|
    ensures Calm(s.pcb, Schedule(s).pcb) && Schedule(s).sems == s.sems && Schedule(s).nextPid == s.nextPid
  {}

  lemma LeaveCalm(s: State, status: Status, k: Kont)
    requires s.curr < |s.pcb| && Curr(s).status == Running && (status == Ready || status == Blocked)
    ensures Calm(s.pcb, Leave(s, status, k).pcb) && Leave(s, status, k).sems == s.sems
      && Leave(s, status, k).nextPid == s.nextPid
  {
    ScheduleCalm(s.(pcb := s.pcb[s.curr := Curr(s).(status := status, kont := k)]));
    hide Schedule;
  }

  lemma CalmBooks(s: State, s': State, log: Log, log': Log)
    requires Pids(s, log) && ExitBooks(s, log) && Calm(s.pcb, s'.pcb) && s'.nextPid == s.nextPid
    requires log'.exits == log.exits && log'.reaps == log.reaps
    ensures Pids(s', log') && ExitBooks(s', log')
  {
    forall i: nat | i < |s.pcb| ensures ZombieRec(s'.pcb[i]) == ZombieRec(s.pcb[i]) {}
    RecsSame(s.pcb, s'.pcb);
    hide Unreaped;
  }

  lemma {:induction false} RecsSame(a: seq<Proc>, b: seq<Proc>)
    requires |a| == |b| && forall i: nat | i < |a| :: ZombieRec(a[i]) == ZombieRec(b[i])
    ensures Unreaped(a) == Unreaped(b)
  {
    hide ZombieRec;
    if a != [] { RecsSame(a[..|a| - 1], b[..|b| - 1]); }
  }

  lemma ForkBooks(s: State, log: Log)
    requires Inv(s) && Books(s, log) && Curr(s).kont == User
    ensures Books(Fork(s), log)
  {
    hide Core;
    CurrFacts(s);
    assert s.nextPid >= 2;
    hide Shape;
    var a, s' := FirstUnused(s.pcb, 1), Fork(s);
    if a < |s.pcb| {
      hide Inv, Unreaped, Pids, SemBooks, Fork, Zombies;
      ForkRecs(s, a);
      ForkPids(s, log);
      ForkSems(s, log);
    }
  }

  lemma ForkPids(s: State, log: Log)
    requires s.curr < |s.pcb| && 1 <= |s.pcb| && Pids(s, log) && Curr(s).status == Running && s.nextPid >= 2
    ensures Pids(Fork(s), log)
  {
    hide AddRefs;
  }

  lemma ForkSems(s: State, log: Log)
    requires Inv(s) && s.curr < |s.pcb| && SemBooks(s, log)
    ensures SemBooks(Fork(s), log)
  {
    hide Core, Shape;
    var s' := Fork(s);
    forall u: nat | u < |s.sems| && s'.sems[u].ref > 0 ensures s.sems[u].ref > 0 { HeldSem(s, u); }
  }

  lemma ForkRecs(s: State, a: nat)
    requires s.curr < |s.pcb| && Curr(s).status == Running && 1 <= a < |s.pcb| && a == FirstUnused(s.pcb, 1)
    ensures Unreaped(Fork(s).pcb) == Unreaped(s.pcb)
  {
    hide Unreaped, Fork, ZombieRec, FirstUnused;
    forall i: nat | i < |s.pcb| ensures |Fork(s).pcb| == |s.pcb|
      && ZombieRec(Fork(s).pcb[i]) == ZombieRec(s.pcb[i]) { ForkRec(s, a, i); }
    RecsSame(s.pcb, Fork(s).pcb);
  }

  lemma ForkRec(s: State, a: nat, i: nat)
    requires s.curr < |s.pcb| && Curr(s).status == Running && 1 <= a < |s.pcb| && a == FirstUnused(s.pcb, 1)
      && i < |s.pcb|
    ensures |Fork(s).pcb| == |s.pcb| && ZombieRec(Fork(s).pcb[i]) == ZombieRec(s.pcb[i])
  {
    hide AddRefs;
  }

  // A semaphore in a slot of the running process has a reference.
  lemma HeldSem(s: State, u: nat)
    requires Inv(s) && u < |s.sems|
    ensures multiset(Curr(s).usems)[u] <= s.sems[u].ref
  {
    hide Shape, Parents, ChildCounts, ZombieCounts, WaitQueues, Konts, SemQueues;
    CurrFacts(s);
    BagAt(s.pcb, UsemKey, s.curr, Curr(s), u);
  }

  lemma ExitKeepsBooks(s: State, code: int, log: Log)
    requires Inv(s) && Books(s, log) && Curr(s).kont == User
    ensures Books(Exit(s, code), log.(exits := log.exits + [Gone(Curr(s).pid, code)]))
  {
    hide Core, Shape, Inv;
    CurrFacts(s);
    ExitIs(s, code);
    ExitTableIs(s, code);
    var t := State(ExitTable(s, code), s.curr, s.nextPid, DropRefs(s.sems, Curr(s).usems));
    var log' := log.(exits := log.exits + [Gone(Curr(s).pid, code)]);
    hide Exit, ExitTable, Exited, Pids, ExitBooks, SemBooks, DropRefs, Schedule, WaitQueues, Konts, Parents,
      ChildCounts, ZombieCounts,
      SemQueues, SemRefs, Zombies;
    CoreWhole(s.pcb, s.sems);
    ExitPids(s, t, code, log);
    ExitRecs(s, t, code, log);
    DropSems(s, t, log, log');
    ScheduleCalm(t);
    CalmBooks(t, Schedule(t), log', log');
    SemsSame(t, Schedule(t), log');
  }

  lemma DropSems(s: State, t: State, log: Log, log': Log)
    requires s.curr < |s.pcb| && SemBooks(s, log) && t.sems == DropRefs(s.sems, Curr(s).usems)
      && log'.balance == log.balance
    ensures SemBooks(t, log')
  {}

  lemma SemsSame(s: State, s': State, log: Log)
    requires SemBooks(s, log) && s'.sems == s.sems
    ensures SemBooks(s', log)
  {}

  lemma ExitPids(s: State, t: State, code: int, log: Log)
    requires s.curr < |s.pcb| && Pids(s, log) && Curr(s).status == Running
      && Exited(s.pcb, t.pcb, s.curr, Curr(s).parent) && t.nextPid == s.nextPid
    requires WaitQueues(s.pcb) && Konts(s.pcb)
    ensures Pids(t, log.(exits := log.exits + [Gone(Curr(s).pid, code)]))
  {
    forall i: nat | i < |s.pcb|
      ensures t.pcb[i].pid == s.pcb[i].pid && (Alive(t.pcb[i]) <==> i != s.curr && Alive(s.pcb[i]))
    {
      if i != s.curr { assert t.pcb[i] == if i == Curr(s).parent then Signalled(Bereft(s.pcb[i], s.curr))
        else Bereft(s.pcb[i], s.curr); }
    }
    hide Exited, WaitQueues, Konts;
  }

  lemma ExitRecs(s: State, t: State, code: int, log: Log)
    requires s.curr < |s.pcb| && ExitBooks(s, log) && Curr(s).status == Running
      && Exited(s.pcb, t.pcb, s.curr, Curr(s).parent)
    requires t.pcb[s.curr].exitCode == code && WaitQueues(s.pcb) && Konts(s.pcb)
    ensures ExitBooks(t, log.(exits := log.exits + [Gone(Curr(s).pid, code)]))
  {
    hide Unreaped, Exited, WaitQueues, Konts, ZombieRec;
    var c, g := s.curr, Gone(Curr(s).pid, code);
    ExitRec(s, t);
    var mid := s.pcb[c := t.pcb[c]];
    UnreapedUpdate(s.pcb, c, t.pcb[c]);
    RecsSame(mid, t.pcb);
    BooksGrow(log.exits, multiset(log.reaps), Unreaped(s.pcb), Unreaped(t.pcb), g);
  }

  // The exit leaves one more zombie.
  lemma ExitRec(s: State, t: State)
    requires s.curr < |s.pcb| && Curr(s).status == Running && Exited(s.pcb, t.pcb, s.curr, Curr(s).parent)
    requires WaitQueues(s.pcb) && Konts(s.pcb)
    ensures |t.pcb| == |s.pcb| && ZombieRec(s.pcb[s.curr]) == multiset{}
    ensures ZombieRec(t.pcb[s.curr]) == multiset{Gone(Curr(s).pid, t.pcb[s.curr].exitCode)}
    ensures forall i: nat | i < |s.pcb| && i != s.curr :: ZombieRec(t.pcb[i]) == ZombieRec(s.pcb[i])
  {
    forall i: nat | i < |s.pcb| && i != s.curr ensures ZombieRec(t.pcb[i]) == ZombieRec(s.pcb[i]) {
      assert t.pcb[i] == if i == Curr(s).parent then Signalled(Bereft(s.pcb[i], s.curr)) else Bereft(s.pcb[i], s.curr);
    }
  }

  lemma BooksGrow(exits: seq<Gone>, reaps: multiset<Gone>, rest: multiset<Gone>, rest': multiset<Gone>, g: Gone)
    requires multiset(exits) == reaps + rest && rest' == rest - multiset{} + multiset{g}
    ensures multiset(exits + [g]) == reaps + rest'
  {
    assert multiset(exits + [g]) == multiset(exits) + multiset{g};
  }

  lemma BooksMove(exits: multiset<Gone>, reaps: seq<Gone>, rest: multiset<Gone>, rest': multiset<Gone>, g: Gone)
    requires exits == multiset(reaps) + rest && multiset{g} <= rest && rest' == rest - multiset{g} + multiset{}
    ensures exits == multiset(reaps + [g]) + rest'
  {
    assert multiset(reaps + [g]) == multiset(reaps) + multiset{g};
  }

  lemma ReapBooks(s: State, s': State, z: nat, log: Log)
    requires Books(s, log) && s.curr < |s.pcb| && Reaped(s.pcb, s'.pcb, s.curr, z) && s' == s.(pcb := s'.pcb)
    ensures Books(s', log.(reaps := log.reaps + [Gone(s.pcb[z].pid, s.pcb[z].exitCode)]))
  {
    hide Unreaped;
    var c, g := s.curr, Gone(s.pcb[z].pid, s.pcb[z].exitCode);
    var log' := log.(reaps := log.reaps + [g]);
    assert Pids(s', log') by { hide ExitBooks, SemBooks; }
    assert SemBooks(s', log') by { hide Pids, ExitBooks; }
    hide Pids, SemBooks;
    var mid := s.pcb[c := s'.pcb[c]];
    UnreapedUpdate(s.pcb, c, s'.pcb[c]);
    UnreapedUpdate(mid, z, s'.pcb[z]);
    assert s'.pcb == mid[z := s'.pcb[z]] && mid[z] == s.pcb[z];
    assert ZombieRec(mid[z]) == multiset{g} && ZombieRec(s'.pcb[z]) == multiset{};
    assert ZombieRec(s.pcb[c]) == multiset{} && ZombieRec(s'.pcb[c]) == multiset{};
    hide Reaped, ZombieRec;
    assert Unreaped(mid) == Unreaped(s.pcb);
    BooksMove(multiset(log.exits), log.reaps, Unreaped(s.pcb), Unreaped(s'.pcb), g);
  }

  // A step that only moves the running process around, or wakes somebody.
  lemma CalmStep(s: State, s': State, log: Log, log': Log)
    requires Books(s, log) && Calm(s.pcb, s'.pcb) && s'.nextPid == s.nextPid && SemBooks(s', log')
    requires log'.exits == log.exits && log'.reaps == log.reaps
    ensures Books(s', log')
  {
    hide Pids, ExitBooks, SemBooks, Calm;
    CalmBooks(s, s', log, log');
  }

  lemma YieldBooks(s: State, log: Log)
    requires Inv(s) && Books(s, log) && Curr(s).kont == User
    ensures Books(Leave(s, Ready, User), log)
  {
    hide Inv, Leave, Zombies, Shape, Core, Pids, ExitBooks, Calm, Books;
    CurrFacts(s);
    LeaveCalm(s, Ready, User);
    BooksParts(s, log);
    SemsSame(s, Leave(s, Ready, User), log);
    hide SemBooks;
    CalmStep(s, Leave(s, Ready, User), log, log);
  }

  lemma BooksParts(s: State, log: Log)
    requires Books(s, log)
    ensures Pids(s, log) && ExitBooks(s, log) && SemBooks(s, log)
  {}

  lemma WaitBooks(s: State, log: Log)
    requires Inv(s) && Books(s, log) && s.curr != 0 && Curr(s).kont == User
    ensures Books(Wait(s), LogStep(s, WaitCall, log))
  {
    hide Inv, Leave, WaitEnd, Zombies, Shape, Core, Pids, ExitBooks, SemBooks, Calm, Books, Reaped;
    CurrFacts(s);
    var c := Curr(s);
    if c.childNum != 0 && c.zsem.value == 0 {
      var t := s.(pcb := s.pcb[s.curr := c.(zsem := c.zsem.(queue := c.zsem.queue + [s.curr]))]);
      assert Calm(s.pcb, t.pcb) by { CalmOne(s.pcb, s.curr, t.pcb[s.curr]); }
      LeaveCalm(t, Blocked, InWait);
      CalmTransitive(s.pcb, t.pcb, Wait(s).pcb);
      BooksParts(s, log);
      SemsSame(s, Wait(s), log);
      CalmStep(s, Wait(s), log, LogStep(s, WaitCall, log));
    } else if c.childNum != 0 {
      var s1 := s.(pcb := s.pcb[s.curr := c.(zsem := c.zsem.(value := c.zsem.value - 1))]);
      WaitEndReaps(s, s1);
      ReapBooks(s, WaitEnd(s1), FindZombie(s.pcb, s.curr, 0), log);
    }
  }

  lemma CalmOne(pcb: seq<Proc>, i: nat, p: Proc)
    requires i < |pcb| && p.pid == pcb[i].pid && p.exitCode == pcb[i].exitCode
    requires (p.status == Zombie <==> pcb[i].status == Zombie) && (Alive(p) <==> Alive(pcb[i]))
    ensures Calm(pcb, pcb[i := p])
  {}

  lemma CalmTransitive(a: seq<Proc>, b: seq<Proc>, c: seq<Proc>)
    requires Calm(a, b) && Calm(b, c)
    ensures Calm(a, c)
  {}

  lemma ResumeBooks(s: State, log: Log)
    requires Inv(s) && Books(s, log) && s.curr != 0 && Curr(s).kont != User
    ensures Books(Resume(s), LogStep(s, ResumeCall, log))
  {
    hide Inv, WaitEnd, Zombies, Shape, Core, Pids, ExitBooks, SemBooks, Calm, Books, Reaped;
    CurrFacts(s);
    var c := Curr(s);
    if c.kont == InWait {
      assert s.pcb[s.curr := c.(zsem := Sem(c.zsem.value + Grant(c) - 1, []))] == s.pcb;
      WaitEndReaps(s, s);
      ReapBooks(s, WaitEnd(s), FindZombie(s.pcb, s.curr, 0), log);
    } else {
      CalmOne(s.pcb, s.curr, c.(kont := User));
      BooksParts(s, log);
      SemsSame(s, Resume(s), log);
      CalmStep(s, Resume(s), log, LogStep(s, ResumeCall, log));
    }
  }

  lemma SemOpenBooks(s: State, value: int, log: Log)
    requires Inv(s) && Books(s, log) && s.curr != 0 && Curr(s).kont == User
    ensures Books(SemOpen(s, value), LogStep(s, SemOpenCall(value), log))
  {
    hide Inv, Zombies, Shape, Core, Pids, ExitBooks, Calm, Books;
    CurrFacts(s);
    BooksParts(s, log);
    var c := Curr(s);
    var id, u := FreeSlot(c.usems, 0), FreeSem(s.sems, 0);
    if id < |c.usems| && u < |s.sems| {
      CalmOne(s.pcb, s.curr, c.(usems := c.usems[id := u]));
    } else {
      CalmOne(s.pcb, s.curr, c);
      assert s.pcb[s.curr := c] == s.pcb;
    }
    CalmStep(s, SemOpen(s, value), log, LogStep(s, SemOpenCall(value), log));
  }

  lemma PBooks(s: State, e: Event, log: Log)
    requires Inv(s) && Books(s, log) && Enabled(s, e) && (e.SemPCall? || e.GetcharCall?)
    ensures Books(PSem(s, ActsOn(s, e)), LogStep(s, e, log))
  {
    hide Inv, Zombies, Shape, Core, Pids, ExitBooks, Calm, Books, Leave;
    CurrFacts(s);
    BooksParts(s, log);
    ActsOnFacts(s, e);
    var c, u := Curr(s), ActsOn(s, e);
    CalmOne(s.pcb, s.curr, c);
    assert s.pcb[s.curr := c] == s.pcb;
    if u != NULL && s.sems[u].sem.value == 0 {
      var m := s.sems[u].sem;
      var t := s.(sems := s.sems[u := s.sems[u].(sem := m.(queue := m.queue + [s.curr]))]);
      LeaveCalm(t, Blocked, InSem(u));
      assert SemBooks(t, log);
      SemsSame(t, PSem(s, u), log);
    }
    CalmStep(s, PSem(s, u), log, LogStep(s, e, log));
  }

  lemma ActsOnFacts(s: State, e: Event)
    requires Inv(s) && Enabled(s, e)
    ensures var u := ActsOn(s, e); u == NULL || (0 <= u < |s.sems| && Mine(s, u))
    ensures var u := ActsOn(s, e); u != NULL && s.sems[u].sem.queue != [] ==> s.sems[u].sem.value == 0
  {
    hide Inv;
    SerialMine(s);
    if e.SemPCall? || e.SemVCall? { SlotFacts(s, e.id); }
    if ActsOn(s, e) != NULL { QueueFacts(s, ActsOn(s, e)); }
  }

  lemma VBooks(s: State, e: Event, log: Log)
    requires Inv(s) && Books(s, log) && Enabled(s, e) && (e.SemVCall? || e.KeyCall?)
    ensures Books(VSem(s, ActsOn(s, e)), LogStep(s, e, log))
  {
    hide Inv, Zombies, Shape, Core, Pids, ExitBooks, Calm, Books, SemQueues;
    CurrFacts(s);
    CoreWhole(s.pcb, s.sems);
    BooksParts(s, log);
    ActsOnFacts(s, e);
    var c, u := Curr(s), ActsOn(s, e);
    CalmOne(s.pcb, s.curr, c);
    assert s.pcb[s.curr := c] == s.pcb;
    if u != NULL && s.sems[u].sem.queue != [] {
      HeadFacts(s.pcb, s.sems, u);
      var w := s.sems[u].sem.queue[0];
      CalmOne(s.pcb, w, s.pcb[w].(status := Ready));
    }
    CalmStep(s, VSem(s, u), log, LogStep(s, e, log));
  }

  lemma SemCloseBooks(s: State, id: int, log: Log)
    requires Inv(s) && Books(s, log) && s.curr != 0 && Curr(s).kont == User
    ensures Books(SemClose(s, id), log)
  {
    hide Inv, Zombies, Shape, Core, Pids, ExitBooks, Calm, Books;
    CurrFacts(s);
    BooksParts(s, log);
    SlotFacts(s, id);
    var c, u := Curr(s), UsemOf(Curr(s), id);
    CalmOne(s.pcb, s.curr, c);
    assert s.pcb[s.curr := c] == s.pcb;
    if u != NULL { CalmOne(s.pcb, s.curr, c.(usems := c.usems[id := NULL])); }
    CalmStep(s, SemClose(s, id), log, log);
  }

  lemma StepBooks(s: State, e: Event, log: Log)
    requires Inv(s) && Books(s, log) && Enabled(s, e)
    ensures Books(Step(s, e), LogStep(s, e, log))
  {
    match e
    case Yield => hide Inv, Leave, Books; YieldBooks(s, log);
    case ForkCall => hide Inv, Fork, Books; ForkBooks(s, log);
    case ExitCall(code) => hide Inv, Exit, Books; ExitKeepsBooks(s, code, log);
    case WaitCall => hide Inv, Wait, Books, LogStep; WaitBooks(s, log);
    case SemOpenCall(v) => hide Inv, SemOpen, Books, LogStep; SemOpenBooks(s, v, log);
    case SemPCall(id) => hide Inv, PSem, Books, LogStep; PBooks(s, e, log);
    case SemVCall(id) => hide Inv, VSem, Books, LogStep; VBooks(s, e, log);
    case GetcharCall => hide Inv, PSem, Books, LogStep; PBooks(s, e, log);
    case KeyCall => hide Inv, VSem, Books, LogStep; VBooks(s, e, log);
    case SemCloseCall(id) => hide Inv, SemClose, Books; SemCloseBooks(s, id, log);
    case FilesCall(files, cwd) =>
      hide Inv, Zombies, Shape, Core, Pids, ExitBooks, Calm, Books;
      CurrFacts(s);
      BooksParts(s, log);
      CalmOne(s.pcb, s.curr, Curr(s).(files := files, cwd := cwd));
      CalmStep(s, Step(s, e), log, log);
    case ResumeCall => hide Inv, Resume, Books, LogStep; ResumeBooks(s, log);
  }

  // ---- runs ----

  // A run of the kernel: from s with history log, by the events es, to t with history log'.
  ghost predicate Runs(s: State, log: Log, es: seq<Event>, t: State, log': Log)
    decreases |es|
  {
    if es == [] then t == s && log' == log
    else Enabled(s, es[0]) && Runs(Step(s, es[0]), LogStep(s, es[0], log), es[1..], t, log')
  }

  lemma {:induction false} RunKeeps(s: State, log: Log, es: seq<Event>, t: State, log': Log)
    requires Inv(s) && Books(s, log) && Runs(s, log, es, t, log')
    ensures Inv(t) && Books(t, log')
    decreases |es|
  {
    if es != [] {
      hide Inv, Books, Step, LogStep;
      StepInv(s, es[0]);
      StepBooks(s, es[0], log);
      RunKeeps(Step(s, es[0]), LogStep(s, es[0], log), es[1..], t, log');
    }
  }

  lemma InitBooks(cwd: int)
    ensures Books(Init(cwd), NoLog())
  {
    var s := Init(cwd);
    forall g ensures Unreaped(s.pcb)[g] == 0 { BagNone(s.pcb, ZombieRec, g); }
    hide Unreaped;
    assert multiset(NoLog().exits) == multiset(NoLog().reaps) + Unreaped(s.pcb);
  }

  // From boot on, whatever processes do: the protocol invariant holds; a wait returns an exit that
  // happened, with its exit code; no exit is returned twice, and none that was not returned is lost.
  lemma EveryRun(cwd: int, es: seq<Event>, t: State, log: Log)
    requires Runs(Init(cwd), NoLog(), es, t, log)
    ensures Inv(t)
    ensures multiset(log.exits) == multiset(log.reaps) + Unreaped(t.pcb)
    ensures forall k, l | 0 <= k < l < |log.reaps| :: log.reaps[k].pid != log.reaps[l].pid
    ensures |log.balance| == |t.sems|
    ensures forall u: nat | u < |t.sems| && t.sems[u].ref > 0 :: t.sems[u].sem.value == log.balance[u]
  {
    InitInv(cwd);
    InitBooks(cwd);
    RunKeeps(Init(cwd), NoLog(), es, t, log);
    hide Inv, Unreaped;
    NoDoubleReap(log.exits, log.reaps, Unreaped(t.pcb));
  }

  lemma NoDoubleReap(exits: seq<Gone>, reaps: seq<Gone>, rest: multiset<Gone>)
    requires multiset(exits) == multiset(reaps) + rest
    requires forall k, l | 0 <= k < l < |exits| :: exits[k].pid != exits[l].pid
    ensures forall k, l | 0 <= k < l < |reaps| :: reaps[k].pid != reaps[l].pid
  {
    forall k, l | 0 <= k < l < |reaps| ensures reaps[k].pid != reaps[l].pid {
      var a, b := reaps[k], reaps[l];
      assert a in multiset(exits) && b in multiset(exits);
      if a == b {
        assert reaps == reaps[..k] + [a] + reaps[k + 1..l] + [a] + reaps[l + 1..];
        assert multiset(exits)[a] >= 2;
        TwiceInSeq(exits, a);
      } else {
        var i :| 0 <= i < |exits| && exits[i] == a;
        var j :| 0 <= j < |exits| && exits[j] == b;
      }
    }
  }

  lemma {:induction false} TwiceInSeq(s: seq<Gone>, a: Gone)
    requires multiset(s)[a] >= 2
    ensures exists k, l :: 0 <= k < l < |s| && s[k] == a && s[l] == a
  {
    var n := |s| - 1;
    assert s == s[..n] + [s[n]];
    if s[n] == a {
      assert a in multiset(s[..n]);
      var k :| 0 <= k < n && s[..n][k] == a;
      assert s[k] == a && s[n] == a;
    } else {
      TwiceInSeq(s[..n], a);
      var k, l :| 0 <= k < l < n && s[..n][k] == a && s[..n][l] == a;
      assert s[k] == a && s[l] == a;
    }
  }
}

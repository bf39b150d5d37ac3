// How long a process waits: for the processor, and in the queue of a semaphore.
module ProcFair {
  import opened Procs
  import opened ProcInvariant
  import opened ProcSteps
  import opened ProcSems
  import opened ProcExit
  import opened ProcRuns

  // Steps round the ring from entry a to entry p.
  function Gap(a: nat, p: nat): (d: nat)
    requires a < PROC_NUM && p < PROC_NUM
    ensures d < PROC_NUM
  {
    if p >= a then p - a else p + PROC_NUM - a
  }

  function After(c: nat): nat
    requires c < PROC_NUM
    ensures After(c) < PROC_NUM
  {
    if c + 1 == PROC_NUM then 0 else c + 1
  }

  // Entries the scheduler passes on its way from entry c to entry p.
  function Ahead(c: nat, p: nat): nat
    requires c < PROC_NUM && p < PROC_NUM
  {
    Gap(After(c), p)
  }

  // Whether a step gives up the processor.
  predicate Switches(s: State, e: Event)
    requires Enabled(s, e)
  {
    match e
    case Yield => true
    case ExitCall(_) => true
    case WaitCall => Curr(s).childNum != 0 && Curr(s).zsem.value == 0
    case SemPCall(id) => var u := UsemOf(Curr(s), id); 0 <= u < |s.sems| && s.sems[u].sem.value == 0
    case GetcharCall => SERIAL < |s.sems| && s.sems[SERIAL].sem.value == 0
    case _ => false
  }

  // ---- one schedule ----

  // The scheduler stops at p at the latest.
  lemma {:induction false} NextReadyBy(pcb: seq<Proc>, from: nat, n: nat, p: nat)
    requires |pcb| == PROC_NUM && from < PROC_NUM && p < PROC_NUM && pcb[p].status == Ready && Gap(from, p) < n
    ensures NextReady(pcb, from, n) < PROC_NUM && Gap(from, NextReady(pcb, from, n)) <= Gap(from, p)
    decreases n
  {
    if pcb[from].status != Ready {
      NextReadyBy(pcb, (from + 1) % PROC_NUM, n - 1, p);
    }
  }

  // p is still waiting for the processor, and closer; or has it.
  ghost predicate Closer(s: State, s': State, p: nat) {
    && s.curr < PROC_NUM && s'.curr < PROC_NUM && p < PROC_NUM && |s'.pcb| == PROC_NUM
    && (s'.curr == p || (s'.pcb[p].status == Ready && Ahead(s'.curr, p) < Ahead(s.curr, p)))
  }

  lemma ScheduleCloser(t: State, p: nat)
    requires |t.pcb| == PROC_NUM && t.curr < PROC_NUM && p < PROC_NUM && t.pcb[p].status == Ready
    ensures Closer(t, Schedule(t), p)
  {
    hide Gap, After;
    assert (t.curr + 1) % PROC_NUM == After(t.curr) by { AfterIs(t.curr); }
    var next := NextReady(t.pcb, After(t.curr), PROC_NUM);
    NextReadyBy(t.pcb, After(t.curr), PROC_NUM, p);
    hide NextReady;
    if next != p { GapShrinks(t.curr, next, p); }
  }

  lemma AfterIs(c: nat)
    requires c < PROC_NUM
    ensures (c + 1) % PROC_NUM == After(c)
  {}

  lemma GapShrinks(c: nat, r: nat, p: nat)
    requires c < PROC_NUM && r < PROC_NUM && p < PROC_NUM && r != p && Gap(After(c), r) <= Gap(After(c), p)
    ensures Ahead(r, p) < Ahead(c, p)
  {}

  lemma LeaveCloser(s: State, status: Status, k: Kont, p: nat)
    requires |s.pcb| == PROC_NUM && s.curr < PROC_NUM && p < PROC_NUM && s.pcb[p].status == Ready && p != s.curr
    ensures Closer(s, Leave(s, status, k), p)
  {
    hide Schedule, Ahead;
    ScheduleCloser(s.(pcb := s.pcb[s.curr := Curr(s).(status := status, kont := k)]), p);
  }

  lemma CloserFrom(s: State, t: State, s': State, p: nat)
    requires Closer(t, s', p) && t.curr == s.curr
    ensures Closer(s, s', p)
  {}

  lemma WaitReady(s: State, p: nat)
    requires Inv(s) && s.curr != 0 && Curr(s).kont == User && p < PROC_NUM && s.pcb[p].status == Ready
    ensures Switches(s, WaitCall) ==> Closer(s, Wait(s), p)
    ensures !Switches(s, WaitCall) ==>
      Wait(s).curr == s.curr && |Wait(s).pcb| == PROC_NUM && Wait(s).pcb[p].status == Ready
  {
    hide Inv, Shape, Core, Leave, Closer, Ahead, Zombies, WaitEnd, Reaped;
    CurrFacts(s);
    var c := Curr(s);
    if c.childNum != 0 && c.zsem.value == 0 {
      var t := s.(pcb := s.pcb[s.curr := c.(zsem := c.zsem.(queue := c.zsem.queue + [s.curr]))]);
      LeaveCloser(t, Blocked, InWait, p);
      CloserFrom(s, t, Wait(s), p);
    } else if c.childNum != 0 {
      var s1 := s.(pcb := s.pcb[s.curr := c.(zsem := c.zsem.(value := c.zsem.value - 1))]);
      WaitEndReaps(s, s1);
      ReapedReady(s.pcb, Wait(s).pcb, s.curr, FindZombie(s.pcb, s.curr, 0), p);
    }
  }

  lemma ReapedReady(pcb: seq<Proc>, pcb': seq<Proc>, c: nat, z: nat, p: nat)
    requires Reaped(pcb, pcb', c, z) && p < |pcb| && pcb[p].status == Ready && p != c
    ensures p < |pcb'| && pcb'[p].status == Ready
  {}

  lemma ResumeReady(s: State, p: nat)
    requires Inv(s) && Curr(s).kont != User && p < PROC_NUM && s.pcb[p].status == Ready
    ensures Resume(s).curr == s.curr && |Resume(s).pcb| == PROC_NUM && Resume(s).pcb[p].status == Ready
  {
    hide Inv, Shape, Core, Zombies, WaitEnd, Reaped;
    CurrFacts(s);
    var c := Curr(s);
    if c.kont == InWait {
      assert s.pcb[s.curr := c.(zsem := Sem(c.zsem.value + Grant(c) - 1, []))] == s.pcb;
      WaitEndReaps(s, s);
      ReapedReady(s.pcb, Resume(s).pcb, s.curr, FindZombie(s.pcb, s.curr, 0), p);
    }
  }

  lemma PReady(s: State, e: Event, p: nat)
    requires Inv(s) && Enabled(s, e) && (e.SemPCall? || e.GetcharCall?) && p < PROC_NUM && s.pcb[p].status == Ready
    ensures var t := PSem(s, ActsOn(s, e));
      && (Switches(s, e) ==> Closer(s, t, p))
      && (!Switches(s, e) ==> t.curr == s.curr && |t.pcb| == PROC_NUM && t.pcb[p].status == Ready)
  {
    hide Inv, Shape, Core, Leave, Closer, Ahead, Zombies;
    CurrFacts(s);
    var u := ActsOn(s, e);
    if Switches(s, e) {
      var m := s.sems[u].sem;
      var t := s.(sems := s.sems[u := s.sems[u].(sem := m.(queue := m.queue + [s.curr]))]);
      LeaveCloser(t, Blocked, InSem(u), p);
      CloserFrom(s, t, PSem(s, u), p);
    }
  }

  lemma ExitReady(s: State, code: int, p: nat)
    requires Inv(s) && Curr(s).kont == User && p < PROC_NUM && s.pcb[p].status == Ready
    ensures Closer(s, Exit(s, code), p)
  {
    hide Inv, Shape, Core, Zombies, ExitTable, Exit, Schedule, DropRefs, Closer, Ahead;
    CurrFacts(s);
    ExitIs(s, code);
    ExitTableIs(s, code);
    var t := State(ExitTable(s, code), s.curr, s.nextPid, DropRefs(s.sems, Curr(s).usems));
    assert t.pcb[p].status == Ready;
    hide Exited;
    ScheduleCloser(t, p);
    CloserFrom(s, t, Exit(s, code), p);
  }

  lemma ForkReady(s: State, p: nat)
    requires s.curr < |s.pcb| && 1 <= |s.pcb| && p < |s.pcb| && s.pcb[p].status == Ready && p != s.curr
    ensures Fork(s).curr == s.curr && |Fork(s).pcb| == |s.pcb| && Fork(s).pcb[p].status == Ready
  {}

  // Nothing but the scheduler takes a process out of READY, and it gets there in ring order.
  lemma ReadyStays(s: State, e: Event, p: nat)
    requires Inv(s) && Enabled(s, e) && p < PROC_NUM && s.pcb[p].status == Ready
    ensures Switches(s, e) ==> Closer(s, Step(s, e), p)
    ensures !Switches(s, e) ==>
      Step(s, e).curr == s.curr && |Step(s, e).pcb| == PROC_NUM && Step(s, e).pcb[p].status == Ready
  {
    hide Inv, Shape, Core, Zombies, Closer, Leave, Fork, Exit, Wait, PSem, Resume;
    CurrFacts(s);
    match e
    case Yield => LeaveCloser(s, Ready, User, p);
    case ForkCall => ForkReady(s, p);
    case ExitCall(code) => ExitReady(s, code, p);
    case WaitCall => WaitReady(s, p);
    case SemPCall(id) => PReady(s, e, p);
    case GetcharCall => PReady(s, e, p);
    case ResumeCall => ResumeReady(s, p);
    case _ =>
  }

  // ---- whole runs ----

  ghost predicate Possible(s: State, es: seq<Event>)
    decreases |es|
  {
    es == [] || (Enabled(s, es[0]) && Possible(Step(s, es[0]), es[1..]))
  }

  // How often the run gives up the processor.
  ghost function Switchings(s: State, es: seq<Event>): nat
    requires Possible(s, es)
    decreases |es|
  {
    if es == [] then 0 else (if Switches(s, es[0]) then 1 else 0) + Switchings(Step(s, es[0]), es[1..])
  }

  // p has the processor at some moment of the run.
  ghost predicate GetsToRun(s: State, es: seq<Event>, p: nat)
    requires Possible(s, es)
    decreases |es|
  {
    s.curr == p || (es != [] && GetsToRun(Step(s, es[0]), es[1..], p))
  }

  // Round robin: however the others behave, a READY process has the processor before the run has
  // called the scheduler more often than there are entries between it and the running one.
  lemma {:induction false} RoundRobin(s: State, es: seq<Event>, p: nat)
    requires Inv(s) && Possible(s, es) && p < PROC_NUM && s.pcb[p].status == Ready
    requires Switchings(s, es) > Ahead(s.curr, p)
    ensures GetsToRun(s, es, p)
    decreases |es|
  {
    hide Inv, Step, Switches;
    InvShape(s);
    var e, s' := es[0], Step(s, es[0]);
    ReadyStays(s, e, p);
    StepInv(s, e);
    InvShape(s');
    if s'.curr != p { RoundRobin(s', es[1..], p); }
    else { assert GetsToRun(s', es[1..], p); }
  }

  lemma InvShape(s: State)
    requires Inv(s)
    ensures Shape(s) && s.curr < PROC_NUM && |s.pcb| == PROC_NUM && |s.sems| == SEM_NUM
  {}

  // ---- semaphore queues ----

  predicate RaisesSem(s: State, e: Event, u: nat)
    requires Enabled(s, e)
  {
    (e.SemVCall? || e.KeyCall?) && ActsOn(s, e) == u
  }

  // Process w waits at place i in the queue of semaphore u.
  predicate WaitsAt(s: State, u: nat, i: nat, w: nat) {
    u < |s.sems| && i < |s.sems[u].sem.queue| && s.sems[u].sem.queue[i] == w
  }

  // The queue only grows at its end.
  ghost predicate QueueGrew(sems: seq<USem>, sems': seq<USem>, u: nat) {
    u < |sems| == |sems'| && sems[u].sem.queue <= sems'[u].sem.queue
  }

  lemma ScheduleSems(t: State)
    requires t.curr < |t.pcb|
    ensures Schedule(t).sems == t.sems
  {}

  lemma LeaveSems(s: State, status: Status, k: Kont)
    requires s.curr < |s.pcb|
    ensures Leave(s, status, k).sems == s.sems
  {}

  lemma PSems(s: State, u: int)
    requires s.curr < |s.pcb|
    ensures 0 <= u < |s.sems| ==> var m := s.sems[u].sem;
      PSem(s, u).sems == s.sems[u := s.sems[u].(sem :=
        if m.value == 0 then m.(queue := m.queue + [s.curr]) else m.(value := m.value - 1))]
  {
    hide Leave;
    if 0 <= u < |s.sems| {
      var m := s.sems[u].sem;
      LeaveSems(s.(sems := s.sems[u := s.sems[u].(sem := m.(queue := m.queue + [s.curr]))]), Blocked, InSem(u));
    }
  }

  lemma WaitSems(s: State)
    requires s.curr < |s.pcb|
    ensures Wait(s).sems == s.sems && Resume(s).sems == s.sems
  {
    hide Leave;
    LeaveSems(s, Ready, InWaitLoop);
    var c := Curr(s);
    var s1 := s.(pcb := s.pcb[s.curr := c.(zsem := c.zsem.(value := c.zsem.value - 1))]);
    LeaveSems(s1, Ready, InWaitLoop);
    LeaveSems(s.(pcb := s.pcb[s.curr := c.(zsem := c.zsem.(queue := c.zsem.queue + [s.curr]))]), Blocked, InWait);
  }

  lemma ExitSems(s: State, code: int)
    requires Inv(s) && Curr(s).kont == User
    ensures Exit(s, code).sems == DropRefs(s.sems, Curr(s).usems)
  {
    hide Inv, ExitTable, Schedule, DropRefs, Exit;
    CurrFacts(s);
    ExitIs(s, code);
    ExitTableIs(s, code);
    ScheduleSems(State(ExitTable(s, code), s.curr, s.nextPid, DropRefs(s.sems, Curr(s).usems)));
  }

  // Whoever waits keeps the place, unless a V moves everybody up.
  lemma QueueStays(s: State, e: Event, u: nat)
    requires Inv(s) && Enabled(s, e) && u < |s.sems| && s.sems[u].sem.queue != [] && !RaisesSem(s, e, u)
    ensures QueueGrew(s.sems, Step(s, e).sems, u)
  {
    hide Inv, Shape, Core, Leave, Wait, Resume, Exit, Zombies;
    CurrFacts(s);
    match e
    case Yield => LeaveSems(s, Ready, User);
    case ForkCall =>
    case ExitCall(code) => ExitSems(s, code);
    case WaitCall => WaitSems(s);
    case SemOpenCall(v) => OpenedElsewhere(s, u);
    case SemPCall(id) => PSems(s, UsemOf(Curr(s), id));
    case GetcharCall => PSems(s, SERIAL);
    case KeyCall =>
    case SemVCall(id) =>
    case SemCloseCall(id) =>
    case FilesCall(files, cwd) =>
    case ResumeCall => WaitSems(s);
  }

  // usem_alloc never re-initialises a semaphore somebody waits on.
  lemma OpenedElsewhere(s: State, u: nat)
    requires Inv(s) && u < |s.sems| && s.sems[u].sem.queue != []
    ensures FreeSem(s.sems, 0) != u
  {
    hide Shape, Parents, ChildCounts, ZombieCounts, WaitQueues, Konts, SemQueues, SemRefs;
    var x := FreeSem(s.sems, 0);
    if x < |s.sems| { FreeSemQueue(s.pcb, s.sems, x); }
  }

  lemma RaiseMoves(s: State, e: Event, u: nat, i: nat, w: nat)
    requires Inv(s) && Enabled(s, e) && RaisesSem(s, e, u) && WaitsAt(s, u, i, w)
    ensures if i == 0 then w < |Step(s, e).pcb|
      && Step(s, e).pcb[w].status == Ready else WaitsAt(Step(s, e), u, i - 1, w)
  {
    hide Inv, Shape, Core, Zombies, SemQueues, SemRefs;
    CurrFacts(s);
    CoreWhole(s.pcb, s.sems);
    HeadFacts(s.pcb, s.sems, u);
  }

  ghost function Raises(s: State, es: seq<Event>, u: nat): nat
    requires Possible(s, es)
    decreases |es|
  {
    if es == [] then 0 else (if RaisesSem(s, es[0], u) then 1 else 0) + Raises(Step(s, es[0]), es[1..], u)
  }

  ghost predicate GetsReady(s: State, es: seq<Event>, w: nat)
    requires Possible(s, es)
    decreases |es|
  {
    (w < |s.pcb| && s.pcb[w].status == Ready) || (es != [] && GetsReady(Step(s, es[0]), es[1..], w))
  }

  // First come, first served: with i processes before it, w is READY again by the time the run has
  // performed i + 1 Vs on the semaphore, whoever performs them and whoever else comes to wait.
  lemma {:induction false} FirstComeFirstServed(s: State, es: seq<Event>, u: nat, i: nat, w: nat)
    requires Inv(s) && Possible(s, es) && WaitsAt(s, u, i, w) && Raises(s, es, u) > i
    ensures GetsReady(s, es, w)
    decreases |es|
  {
    hide Inv, Step, RaisesSem;
    var e, s' := es[0], Step(s, es[0]);
    StepInv(s, e);
    if RaisesSem(s, e, u) {
      RaiseMoves(s, e, u, i, w);
      if i > 0 { FirstComeFirstServed(s', es[1..], u, i - 1, w); }
      else { assert GetsReady(s', es[1..], w); }
    } else {
      QueueStays(s, e, u);
      FirstComeFirstServed(s', es[1..], u, i, w);
    }
  }

  // ---- values ----

  // A semaphore comes into being with a negative value: sem_open asks for it, and finds a slot and a semaphore.
  predicate OpensNegative(s: State, e: Event)
    requires Enabled(s, e)
  {
    && e.SemOpenCall? && e.value < 0
    && FreeSlot(Curr(s).usems, 0) < |Curr(s).usems| && FreeSem(s.sems, 0) < |s.sems|
  }

  ghost predicate Counting(sems: seq<USem>) {
    forall u: nat | u < |sems| :: sems[u].sem.value >= 0
  }

  // Values stay at or above 0 exactly as long as no semaphore is opened with a negative one.
  lemma CountingStep(s: State, e: Event)
    requires Inv(s) && Enabled(s, e) && Counting(s.sems)
    ensures Counting(Step(s, e).sems) <==> !OpensNegative(s, e)
  {
    hide Inv, Shape, Core, Leave, Wait, Resume, Exit, Zombies;
    CurrFacts(s);
    match e
    case Yield => LeaveSems(s, Ready, User);
    case ForkCall =>
    case ExitCall(code) => ExitSems(s, code);
    case WaitCall => WaitSems(s);
    case SemOpenCall(v) => OpenValue(s, v);
    case SemPCall(id) => PSems(s, UsemOf(Curr(s), id));
    case GetcharCall => PSems(s, SERIAL);
    case KeyCall =>
    case SemVCall(id) =>
    case SemCloseCall(id) =>
    case FilesCall(files, cwd) =>
    case ResumeCall => WaitSems(s);
  }

  lemma OpenValue(s: State, v: int)
    requires s.curr < |s.pcb| && Counting(s.sems)
    ensures Counting(SemOpen(s, v).sems)
      <==> !(v < 0 && FreeSlot(Curr(s).usems, 0) < |Curr(s).usems| && FreeSem(s.sems, 0) < |s.sems|)
  {
    var id, u := FreeSlot(Curr(s).usems, 0), FreeSem(s.sems, 0);
    if id < |Curr(s).usems| && u < |s.sems| { assert SemOpen(s, v).sems[u].sem.value == v; }
  }

  // In every state of the run.
  ghost predicate CountingThroughout(s: State, es: seq<Event>)
    decreases |es|
  {
    Counting(s.sems) && (es != [] && Enabled(s, es[0]) ==> CountingThroughout(Step(s, es[0]), es[1..]))
  }

  predicate NoneNegative(s: State, es: seq<Event>)
    decreases |es|
  {
    es != [] && Enabled(s, es[0]) ==> !OpensNegative(s, es[0]) && NoneNegative(Step(s, es[0]), es[1..])
  }

  lemma {:induction false} CountingRun(s: State, es: seq<Event>)
    requires Inv(s) && Counting(s.sems)
    ensures CountingThroughout(s, es) <==> NoneNegative(s, es)
    decreases |es|
  {
    if es != [] && Enabled(s, es[0]) {
      hide Inv, Step, Counting, OpensNegative;
      StepInv(s, es[0]);
      CountingStep(s, es[0]);
      if !OpensNegative(s, es[0]) {
        CountingRun(Step(s, es[0]), es[1..]);
      } else {
        NotCounting(Step(s, es[0]), es[1..]);
      }
    }
  }

  lemma NotCounting(s: State, es: seq<Event>)
    requires !Counting(s.sems)
    ensures !CountingThroughout(s, es)
  {}

  // P on a semaphore with a negative value blocks nobody and leads further down.
  lemma NegativeNeverBlocks(s: State, u: nat)
    requires s.curr < |s.pcb| && u < |s.sems| && s.sems[u].sem.value < 0
    ensures PSem(s, u).curr == s.curr && PSem(s, u).pcb == s.pcb
    ensures PSem(s, u).sems[u].sem.value == s.sems[u].sem.value - 1
  {}

  lemma BootTable(cwd: int)
    ensures var s := Init(cwd);
      s.curr == 0 && |s.pcb| == PROC_NUM && s.pcb[0].kont == User && s.pcb[1].kont == User && s.pcb[1].status == Ready
        && s.pcb[1].usems == NoSlots(MAX_USEM) && 0 < |s.sems| && s.sems[0].ref == 0
  {}

  lemma ReadyHere(pcb: seq<Proc>, from: nat, n: nat)
    requires from < |pcb| && n > 0 && pcb[from].status == Ready
    ensures NextReady(pcb, from, n) == from
  {}

  // The first tick: the shell runs.
  lemma FirstTick(cwd: int)
    ensures var s := Init(cwd); Enabled(s, Yield) && FreshShell(Step(s, Yield))
  {
    hide Init, NextReady;
    BootTable(cwd);
    var s := Init(cwd);
    ReadyHere(s.pcb[0 := s.pcb[0].(status := Ready, kont := User)], 1, PROC_NUM);
  }

  // Process 1 runs and has no semaphore, and the first one is free.
  ghost predicate FreshShell(s: State) {
    && s.curr == 1 < |s.pcb| && Curr(s).kont == User && Curr(s).status == Running
    && Curr(s).usems == NoSlots(MAX_USEM) && 0 < |s.sems| && s.sems[0].ref == 0
  }

  lemma ShellOpens(s: State)
    requires FreshShell(s)
    ensures Enabled(s, SemOpenCall(-1)) && OpensNegative(s, SemOpenCall(-1))
    ensures var s' := Step(s, SemOpenCall(-1));
      s'.curr == 1 && 0 < |s'.sems| && s'.sems[0].sem == Sem(-1, []) && Enabled(s', SemPCall(0))
        && UsemOf(Curr(s'), 0) == 0 && Curr(s').status == Running
  {
    assert FreeSlot(Curr(s).usems, 0) == 0 && FreeSem(s.sems, 0) == 0;
  }

  // The first shell opens a semaphore with -1 and is let through its P.
  lemma NegativeOpen(cwd: int) returns (t: State, log: Log)
    ensures Runs(Init(cwd), NoLog(), [Yield, SemOpenCall(-1), SemPCall(0)], t, log)
    ensures t.curr == 1 < |t.pcb| && t.pcb[1].status == Running && 0 < |t.sems| && t.sems[0].sem.value == -2
  {
    var s, l := Init(cwd), NoLog();
    FirstTick(cwd);
    var s1 := Step(s, Yield);
    ShellOpens(s1);
    var s2 := Step(s1, SemOpenCall(-1));
    NegativeNeverBlocks(s2, 0);
    t := Step(s2, SemPCall(0));
    hide Init, Step, LogStep, FreshShell, OpensNegative, UsemOf, PSem;
    var l1 := LogStep(s, Yield, l);
    var l2 := LogStep(s1, SemOpenCall(-1), l1);
    log := LogStep(s2, SemPCall(0), l2);
    ThreeSteps(s, l, Yield, SemOpenCall(-1), SemPCall(0));
  }

  lemma ThreeSteps(s: State, l: Log, a: Event, b: Event, c: Event)
    requires Enabled(s, a) && Enabled(Step(s, a), b) && Enabled(Step(Step(s, a), b), c)
    ensures var t, m := Step(s, a), LogStep(s, a, l);
      var u, n := Step(t, b), LogStep(t, b, m);
      Runs(s, l, [a, b, c], Step(u, c), LogStep(u, c, n))
  {
    hide Enabled, Step, LogStep;
    var t, m := Step(s, a), LogStep(s, a, l);
    var u, n := Step(t, b), LogStep(t, b, m);
    var v, o := Step(u, c), LogStep(u, c, n);
    assert [a, b, c][1..] == [b, c] && [b, c][1..] == [c] && [c][1..] == [];
    assert Runs(v, o, [], v, o);
    assert Runs(u, n, [c], v, o);
    assert Runs(t, m, [b, c], v, o);
  }
}

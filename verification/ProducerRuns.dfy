// The producers and consumers of user/src/phase4/producer.c as processes of the kernel: their semaphores
// are three of the table, and whatever else goes on, the kernel runs them as Producers says.
module ProducerRuns {
  import opened Procs
  import opened ProcInvariant
  import opened ProcSteps
  import opened ProcExit
  import opened ProcRuns
  import opened ProcFair
  import Producers

  // The table entries of the workers, the semaphores, and the slots that lead to them.
  datatype Crew = Crew(ps: seq<nat>, empty: nat, full: nat, mutex: nat, emptyId: nat, fullId: nat, mutexId: nat)

  predicate CrewOk(c: Crew) {
    && c.empty < USER_SEM_NUM && c.full < USER_SEM_NUM && c.mutex < USER_SEM_NUM
    && c.empty != c.full && c.full != c.mutex && c.empty != c.mutex
    && c.emptyId < MAX_USEM && c.fullId < MAX_USEM && c.mutexId < MAX_USEM
    && (forall i, j | 0 <= i < j < |c.ps| :: c.ps[i] != c.ps[j])
  }

  predicate Shared(c: Crew, u: int) { u == c.empty || u == c.full || u == c.mutex }

  // A queue of workers, as a queue of processes.
  function Mapped(m: Sem, ps: seq<nat>): Sem {
    Sem(m.value, seq(|m.queue|, k requires 0 <= k < |m.queue| =>
      if 0 <= m.queue[k] < |ps| then ps[m.queue[k]] else NULL))
  }

  predicate HoldsAll(p: Proc, c: Crew)
    requires CrewOk(c)
  {
    |p.usems| == MAX_USEM && p.usems[c.emptyId] == c.empty && p.usems[c.fullId] == c.full
    && p.usems[c.mutexId] == c.mutex
  }

  // The state of the kernel shows the stage.
  ghost predicate Shows(s: State, st: Producers.Stage, c: Crew) {
    && CrewOk(c) && |c.ps| == |st.ws| && |s.sems| == SEM_NUM
    && s.sems[c.empty].sem == Mapped(st.empty, c.ps) && s.sems[c.full].sem == Mapped(st.full, c.ps)
    && s.sems[c.mutex].sem == Mapped(st.mutex, c.ps)
    && forall i: nat | i < |c.ps| :: c.ps[i] < |s.pcb| && HoldsAll(s.pcb[c.ps[i]], c)
  }

  // ---- what each process may do ----

  // The next semaphore operation of a worker.
  function Next(w: Producers.Worker, c: Crew): Event {
    match w.pc
    case Begin => SemPCall(if w.producer then c.emptyId else c.fullId)
    case HasFirst => SemPCall(c.mutexId)
    case Inside => SemVCall(c.mutexId)
    case _ => SemVCall(if w.producer then c.fullId else c.emptyId)
  }

  function SemOfNext(w: Producers.Worker, c: Crew): nat {
    match w.pc
    case Begin => if w.producer then c.empty else c.full
    case HasFirst => c.mutex
    case Inside => c.mutex
    case _ => if w.producer then c.full else c.empty
  }

  // The worker that is running, |ps| if none is.
  function Worker(s: State, ps: seq<nat>): (i: nat)
    ensures i <= |ps| && (i < |ps| ==> ps[i] == s.curr)
    ensures i == |ps| ==> s.curr !in ps
  {
    if ps == [] then 0 else if ps[0] == s.curr then 0 else 1 + Worker(s, ps[1..])
  }

  // Only workers use the three semaphores, each as its program says, and workers neither exit nor close
  // a semaphore. All else is free: yields, forks, files, other semaphores, and other processes.
  ghost predicate Follows(s: State, st: Producers.Stage, c: Crew, e: Event)
    requires Enabled(s, e) && |c.ps| == |st.ws|
  {
    var i := Worker(s, c.ps);
    && (Shared(c, ActsOn(s, e)) ==> i < |c.ps| && e == Next(st.ws[i], c))
    && (i < |c.ps| ==> !e.ExitCall? && !e.SemCloseCall?)
  }

  // ---- a step that does not touch the three ----

  lemma HeldHasRef(s: State, p: nat, id: nat)
    requires Inv(s) && p < |s.pcb| && id < |s.pcb[p].usems| && 0 <= s.pcb[p].usems[id] < |s.sems|
    ensures s.sems[s.pcb[p].usems[id]].ref > 0 && Alive(s.pcb[p])
  {
    hide Shape, Parents, ChildCounts, ZombieCounts, WaitQueues, Konts, SemQueues;
    var u := s.pcb[p].usems[id];
    BagsHold(s.pcb, p, u);
    assert u in multiset(s.pcb[p].usems);
  }

  lemma BagsHold(pcb: seq<Proc>, p: nat, u: int)
    requires p < |pcb|
    ensures UsemSlots(pcb)[u] >= multiset(pcb[p].usems)[u]
  {
    Bags.BagUpdate(pcb, UsemKey, p, pcb[p]);
  }

  // A semaphore in use that the event is not about stays as it is.
  lemma SemStays(s: State, e: Event, u: nat)
    requires Inv(s) && Enabled(s, e) && u < |s.sems| && s.sems[u].ref > 0 && ActsOn(s, e) != u
    ensures |Step(s, e).sems| == |s.sems| && Step(s, e).sems[u].sem == s.sems[u].sem
  {
    hide Inv, Shape, Core, Leave, Wait, Resume, Exit, Zombies;
    CurrFacts(s);
    match e
    case Yield => LeaveSems(s, Ready, User);
    case ForkCall =>
    case ExitCall(code) => ExitSems(s, code);
    case WaitCall => WaitSems(s);
    case SemOpenCall(v) =>
    case SemPCall(id) => PSems(s, UsemOf(Curr(s), id));
    case GetcharCall => PSems(s, SERIAL);
    case KeyCall =>
    case SemVCall(id) =>
    case SemCloseCall(id) =>
    case FilesCall(files, cwd) =>
    case ResumeCall => WaitSems(s);
  }

  // Every process has the slots it had.
  ghost predicate SameSlots(s: State, s': State) {
    |s'.pcb| == |s.pcb| && forall p: nat | p < |s.pcb| :: s'.pcb[p].usems == s.pcb[p].usems
  }

  lemma ScheduleSlots(s: State)
    requires s.curr < |s.pcb|
    ensures SameSlots(s, Schedule(s))
  {}

  lemma LeaveSlots(s: State, t: State, status: Status, k: Kont)
    requires s.curr < |s.pcb| && SameSlots(s, t) && t.curr == s.curr
    ensures SameSlots(s, Leave(t, status, k))
  {
    hide Schedule;
    ScheduleSlots(t.(pcb := t.pcb[t.curr := Curr(t).(status := status, kont := k)]));
  }

  lemma WaitSlots(s: State)
    requires Inv(s) && Curr(s).kont == User
    ensures SameSlots(s, Wait(s))
  {
    hide Inv, Shape, Core, Zombies, Leave, WaitEnd;
    CurrFacts(s);
    var c := Curr(s);
    if c.childNum != 0 && c.zsem.value == 0 {
      var t := s.(pcb := s.pcb[s.curr := c.(zsem := c.zsem.(queue := c.zsem.queue + [s.curr]))]);
      LeaveSlots(s, t, Blocked, InWait);
    } else if c.childNum != 0 {
      var s1 := s.(pcb := s.pcb[s.curr := c.(zsem := c.zsem.(value := c.zsem.value - 1))]);
      WaitEndReaps(s, s1);
    }
  }

  lemma ResumeSlots(s: State)
    requires Inv(s) && Curr(s).kont != User
    ensures SameSlots(s, Resume(s))
  {
    hide Inv, Shape, Core, Zombies, WaitEnd;
    CurrFacts(s);
    if Curr(s).kont == InWait {
      assert s.pcb[s.curr := Curr(s).(zsem := Sem(Curr(s).zsem.value + Grant(Curr(s)) - 1, []))] == s.pcb;
      WaitEndReaps(s, s);
    }
  }

  lemma PSlots(s: State, u: int)
    requires s.curr < |s.pcb|
    ensures SameSlots(s, PSem(s, u))
  {
    hide Leave;
    if 0 <= u < |s.sems| && s.sems[u].sem.value == 0 {
      var m := s.sems[u].sem;
      var t := s.(sems := s.sems[u := s.sems[u].(sem := m.(queue := m.queue + [s.curr]))]);
      LeaveSlots(s, t, Blocked, InSem(u));
    }
  }

  // A process that is not the one to exit, close or open keeps its slots; whoever opens keeps those in use.
  lemma SlotsStay(s: State, e: Event, p: nat, id: nat)
    requires Inv(s) && Enabled(s, e) && p < |s.pcb| && id < MAX_USEM
    requires |s.pcb[p].usems| == MAX_USEM && s.pcb[p].usems[id] != NULL && Alive(s.pcb[p])
    requires p == s.curr ==> !e.ExitCall? && !e.SemCloseCall?
    ensures |Step(s, e).pcb| == |s.pcb| && |Step(s, e).pcb[p].usems| == MAX_USEM
    ensures Step(s, e).pcb[p].usems[id] == s.pcb[p].usems[id]
  {
    hide Inv, Shape, Core, Zombies, Leave, Exit, Wait, PSem, Resume, WaitEnd;
    CurrFacts(s);
    match e
    case Yield => LeaveSlots(s, s, Ready, User);
    case ForkCall =>
    case ExitCall(code) => ExitSlots(s, code, p);
    case WaitCall => WaitSlots(s);
    case SemOpenCall(v) =>
    case SemPCall(i) => PSlots(s, UsemOf(Curr(s), i));
    case SemVCall(i) =>
    case SemCloseCall(i) =>
    case GetcharCall => PSlots(s, SERIAL);
    case KeyCall =>
    case FilesCall(files, cwd) =>
    case ResumeCall => ResumeSlots(s);
  }

  lemma ExitSlots(s: State, code: int, p: nat)
    requires Inv(s) && Curr(s).kont == User && p < |s.pcb| && p != s.curr
    ensures |Exit(s, code).pcb| == |s.pcb| && Exit(s, code).pcb[p].usems == s.pcb[p].usems
  {
    hide Inv, Shape, Core, Zombies, Exit, ExitTable, Schedule, DropRefs;
    CurrFacts(s);
    ExitIs(s, code);
    ExitTableIs(s, code);
    var t := State(ExitTable(s, code), s.curr, s.nextPid, DropRefs(s.sems, Curr(s).usems));
    assert t.pcb[p] == if p == Curr(s).parent then Signalled(Bereft(s.pcb[p], s.curr)) else Bereft(s.pcb[p], s.curr);
    ScheduleSlots(t);
  }

  // ---- the two kinds of steps ----

  lemma SharedHeld(s: State, st: Producers.Stage, c: Crew, u: nat)
    requires Inv(s) && Shows(s, st, c) && c.ps != [] && Shared(c, u)
    ensures u < |s.sems| && s.sems[u].ref > 0
  {
    hide Inv;
    var p := c.ps[0];
    assert HoldsAll(s.pcb[p], c);
    HeldHasRef(s, p, if u == c.empty then c.emptyId else if u == c.full then c.fullId else c.mutexId);
  }

  lemma CrewKeeps(s: State, st: Producers.Stage, c: Crew, e: Event)
    requires Inv(s) && Enabled(s, e) && Shows(s, st, c) && Follows(s, st, c, e)
    ensures forall i: nat | i < |c.ps| :: c.ps[i] < |Step(s, e).pcb| && HoldsAll(Step(s, e).pcb[c.ps[i]], c)
  {
    hide Inv, Step;
    forall i: nat | i < |c.ps| ensures c.ps[i] < |Step(s, e).pcb| && HoldsAll(Step(s, e).pcb[c.ps[i]], c) {
      var p := c.ps[i];
      assert HoldsAll(s.pcb[p], c);
      InvSems(s);
      HeldHasRef(s, p, c.emptyId);
      SlotsStay(s, e, p, c.emptyId);
      SlotsStay(s, e, p, c.fullId);
      SlotsStay(s, e, p, c.mutexId);
    }
  }

  lemma InvSems(s: State)
    requires Inv(s)
    ensures |s.sems| == SEM_NUM && |s.pcb| == PROC_NUM
  {
    hide Core;
  }

  // Nobody touches the three: the stage stays.
  lemma Stutter(s: State, st: Producers.Stage, c: Crew, e: Event)
    requires Inv(s) && Enabled(s, e) && Shows(s, st, c) && Follows(s, st, c, e) && c.ps != []
    requires !Shared(c, ActsOn(s, e))
    ensures Shows(Step(s, e), st, c)
  {
    hide Inv, Step, Mapped, HoldsAll, ActsOn, Follows;
    CrewKeeps(s, st, c, e);
    StepInv(s, e);
    InvSems(Step(s, e));
    forall u: nat | Shared(c, u) ensures u < |Step(s, e).sems| && Step(s, e).sems[u].sem == s.sems[u].sem {
      SharedHeld(s, st, c, u);
      SemStays(s, e, u);
    }
  }

  lemma MapAppend(m: Sem, ps: seq<nat>, i: nat)
    requires i < |ps|
    ensures Mapped(m.(queue := m.queue + [i]), ps) == Mapped(m, ps).(queue := Mapped(m, ps).queue + [ps[i]])
    ensures Mapped(m.(value := m.value - 1), ps) == Mapped(m, ps).(value := m.value - 1)
  {}

  lemma MapUp(m: Sem, ps: seq<nat>)
    ensures Mapped(Up(m), ps) == Up(Mapped(m, ps))
  {
    if m.queue != [] { assert Mapped(m, ps).queue[1..] == Mapped(m.(queue := m.queue[1..]), ps).queue; }
  }

  // The semaphore w is about to operate on, as the stage has it; and the stage with another one there.
  function StageSem(st: Producers.Stage, w: Producers.Worker): Sem {
    match w.pc
    case Begin => Producers.First(st, w.producer)
    case HasFirst => st.mutex
    case Inside => st.mutex
    case _ => Producers.First(st, !w.producer)
  }

  lemma ShowsSem(s: State, st: Producers.Stage, c: Crew, w: Producers.Worker)
    requires Shows(s, st, c)
    ensures SemOfNext(w, c) < |s.sems| && s.sems[SemOfNext(w, c)].sem == Mapped(StageSem(st, w), c.ps)
    ensures Shared(c, SemOfNext(w, c))
  {
    hide Mapped;
  }

  // A worker that waits on the stage is blocked in the kernel; so one that runs is not waiting.
  lemma WaiterBlocked(s: State, st: Producers.Stage, c: Crew, i: nat)
    requires Inv(s) && Producers.Inv(st) && Shows(s, st, c) && i < |c.ps| && !Producers.Enabled(st, i)
    ensures c.ps[i] < |s.pcb| && s.pcb[c.ps[i]].status == Blocked
  {
    hide Inv, HoldsAll, Producers.Inv;
    var w := st.ws[i];
    var m := if w.pc == Producers.WaitMutex then st.mutex else Producers.First(st, w.producer);
    var u := if w.pc == Producers.WaitMutex then c.mutex else if w.producer then c.empty else c.full;
    QueuedInStage(st, i);
    var k: nat :| k < |m.queue| && m.queue[k] == i;
    assert s.sems[u].sem.queue[k] == c.ps[i];
    QueuedBlocked(s, u, k);
  }

  lemma RunsFree(s: State, st: Producers.Stage, c: Crew, i: nat)
    requires Inv(s) && Producers.Inv(st) && Shows(s, st, c) && i < |c.ps| && c.ps[i] == s.curr
    ensures Producers.Enabled(st, i)
  {
    hide Inv, Shows, Producers.Inv, Producers.Enabled;
    CurrFacts(s);
    if !Producers.Enabled(st, i) { WaiterBlocked(s, st, c, i); }
  }

  lemma QueuedInStage(st: Producers.Stage, i: nat)
    requires Producers.Inv(st) && i < |st.ws| && !Producers.Enabled(st, i)
    ensures i in (if st.ws[i].pc == Producers.WaitMutex then st.mutex else Producers.First(st, st.ws[i].producer)).queue
  {}

  lemma QueuedBlocked(s: State, u: nat, k: nat)
    requires Inv(s) && u < |s.sems| && k < |s.sems[u].sem.queue|
    ensures var w := s.sems[u].sem.queue[k]; 0 <= w < |s.pcb| && s.pcb[w].status == Blocked && s.pcb[w].kont == InSem(u)
  {
    hide Shape, Parents, ChildCounts, ZombieCounts, WaitQueues, Konts, SemRefs;
  }

  // The stage after the operation of worker i differs in one semaphore.
  lemma StageAfterP(st: Producers.Stage, i: nat)
    requires Producers.Enabled(st, i) && (st.ws[i].pc == Producers.Begin || st.ws[i].pc == Producers.HasFirst)
    ensures var m, st', w := StageSem(st, st.ws[i]), Producers.Step(st, i), st.ws[i];
      && StageSem(st', w) == (if m.value == 0 then m.(queue := m.queue + [i]) else m.(value := m.value - 1))
      && SameOthers(st, st', w)
  {}

  lemma StageAfterV(st: Producers.Stage, i: nat)
    requires Producers.Enabled(st, i) && st.ws[i].pc != Producers.Begin && st.ws[i].pc != Producers.HasFirst
    ensures var m, st', w := StageSem(st, st.ws[i]), Producers.Step(st, i), st.ws[i];
      StageSem(st', w) == Up(m) && SameOthers(st, st', w)
  {}

  predicate SameOthers(st: Producers.Stage, st': Producers.Stage, w: Producers.Worker) {
    var c := Crew([], 0, 1, 2, 0, 1, 2);
    && |st'.ws| == |st.ws|
    && (SemOfNext(w, c) == 0 || st'.empty == st.empty) && (SemOfNext(w, c) == 1 || st'.full == st.full)
    && (SemOfNext(w, c) == 2 || st'.mutex == st.mutex)
  }

  lemma ShowsNext(s: State, s': State, st: Producers.Stage, st': Producers.Stage, c: Crew, w: Producers.Worker, m: Sem)
    requires Shows(s, st, c) && SameOthers(st, st', w) && StageSem(st', w) == m
    requires var u := SemOfNext(w, c);
      u < |s.sems| && s'.sems == s.sems[u := s.sems[u].(sem := Mapped(m, c.ps))]
    requires forall i: nat | i < |c.ps| :: c.ps[i] < |s'.pcb| && HoldsAll(s'.pcb[c.ps[i]], c)
    ensures Shows(s', st', c)
  {
    hide Mapped, HoldsAll;
  }

  // The running worker does its next operation, in the kernel and on the stage alike.
  lemma Acts(s: State, st: Producers.Stage, c: Crew, e: Event, i: nat)
    requires Inv(s) && Producers.Inv(st) && Enabled(s, e) && Shows(s, st, c) && Follows(s, st, c, e)
    requires i == Worker(s, c.ps) < |c.ps| && e == Next(st.ws[i], c)
    ensures Producers.Enabled(st, i) && Shows(Step(s, e), Producers.Step(st, i), c)
  {
    hide Inv, Producers.Inv, Shows, Follows, Mapped, Producers.Step, StageSem, SameOthers, SemOfNext, Leave;
    RunsFree(s, st, c, i);
    CrewKeeps(s, st, c, e);
    var w := st.ws[i];
    ShowsSem(s, st, c, w);
    var u, m, st' := SemOfNext(w, c), StageSem(st, w), Producers.Step(st, i);
    SlotIs(s, st, c, i);
    MappedValue(m, c.ps);
    if w.pc == Producers.Begin || w.pc == Producers.HasFirst {
      StageAfterP(st, i);
      PSems(s, u);
      MapAppend(m, c.ps, i);
    } else {
      StageAfterV(st, i);
      MapUp(m, c.ps);
    }
    ShowsNext(s, Step(s, e), st, st', c, w, StageSem(st', w));
  }

  lemma MappedValue(m: Sem, ps: seq<nat>)
    ensures Mapped(m, ps).value == m.value
  {}

  lemma SlotIs(s: State, st: Producers.Stage, c: Crew, i: nat)
    requires Shows(s, st, c) && i < |c.ps| && c.ps[i] == s.curr < |s.pcb| && Producers.Enabled(st, i)
    ensures var w := st.ws[i]; UsemOf(Curr(s), Next(w, c).id) == SemOfNext(w, c)
  {}

  // ---- whole runs ----

  // The worker whose operation an event is, if it is one.
  ghost function Moves(s: State, st: Producers.Stage, c: Crew, e: Event): seq<nat>
    requires Enabled(s, e)
  {
    if Shared(c, ActsOn(s, e)) then [Worker(s, c.ps)] else []
  }

  ghost function After(st: Producers.Stage, moves: seq<nat>): Producers.Stage {
    if moves != [] && Producers.Enabled(st, moves[0]) then Producers.Step(st, moves[0]) else st
  }

  // All through the run, whoever runs follows the program.
  ghost predicate Disciplined(s: State, es: seq<Event>, st: Producers.Stage, c: Crew)
    decreases |es|
  {
    es == []
    || (Enabled(s, es[0]) && |c.ps| == |st.ws| && Follows(s, st, c, es[0])
        && Disciplined(Step(s, es[0]), es[1..], After(st, Moves(s, st, c, es[0])), c))
  }

  lemma OneEvent(s: State, st: Producers.Stage, c: Crew, e: Event)
    requires Inv(s) && Producers.Inv(st) && Enabled(s, e) && Shows(s, st, c) && Follows(s, st, c, e) && c.ps != []
    ensures var moves := Moves(s, st, c, e); Producers.Run(st, moves, After(st, moves))
    ensures Shows(Step(s, e), After(st, Moves(s, st, c, e)), c) && Producers.Inv(After(st, Moves(s, st, c, e)))
  {
    hide Inv, Producers.Inv, Shows, Producers.Step, Step;
    if Shared(c, ActsOn(s, e)) {
      var i := Worker(s, c.ps);
      Crewed(s, st, c);
      Acts(s, st, c, e, i);
      Producers.StepInv(st, i);
      assert [i][1..] == [];
      assert Producers.Run(Producers.Step(st, i), [], Producers.Step(st, i));
    } else {
      Stutter(s, st, c, e);
    }
  }

  lemma Crewed(s: State, st: Producers.Stage, c: Crew)
    requires Shows(s, st, c)
    ensures |c.ps| == |st.ws|
  {}

  lemma {:induction false} RunTwice(a: Producers.Stage, ms: seq<nat>, b: Producers.Stage, ns: seq<nat>,
      d: Producers.Stage)
    requires Producers.Run(a, ms, b) && Producers.Run(b, ns, d)
    ensures Producers.Run(a, ms + ns, d)
    decreases |ms|
  {
    if ms == [] {
      assert ms + ns == ns;
    } else {
      RunTwice(Producers.Step(a, ms[0]), ms[1..], b, ns, d);
      assert (ms + ns)[0] == ms[0] && (ms + ns)[1..] == ms[1..] + ns;
    }
  }

  // A run of the kernel is, on the three semaphores, a run of the producers and consumers.
  lemma {:induction false} Projects(s: State, log: Log, es: seq<Event>, t: State, log': Log, st: Producers.Stage,
      c: Crew) returns (moves: seq<nat>, st': Producers.Stage)
    requires Inv(s) && Producers.Inv(st) && Shows(s, st, c) && c.ps != []
    requires Runs(s, log, es, t, log') && Disciplined(s, es, st, c)
    ensures Producers.Run(st, moves, st') && Shows(t, st', c) && Producers.Inv(st') && Inv(t)
    decreases |es|
  {
    if es == [] {
      moves, st' := [], st;
    } else {
      hide Inv, Producers.Inv, Shows, Producers.Step, Step, LogStep, Moves, After, Follows, Producers.Run;
      var first := Moves(s, st, c, es[0]);
      var next := After(st, first);
      OneEvent(s, st, c, es[0]);
      StepInv(s, es[0]);
      moves, st' := Projects(Step(s, es[0]), LogStep(s, es[0], log), es[1..], t, log', next, c);
      RunTwice(st, first, next, moves, st');
      moves := first + moves;
    }
  }

  // Process p sleeps on one of the three.
  predicate Asleep(p: Proc, c: Crew) { p.status == Blocked && p.kont.InSem? && Shared(c, p.kont.sem) }

  lemma SleeperWaits(s: State, st: Producers.Stage, c: Crew, i: nat)
    requires Inv(s) && Producers.Inv(st) && Shows(s, st, c) && i < |c.ps|
    requires c.ps[i] < |s.pcb| && Asleep(s.pcb[c.ps[i]], c)
    ensures !Producers.Enabled(st, i)
  {
    hide Inv, HoldsAll, Producers.Inv;
    var p := c.ps[i];
    var u := s.pcb[p].kont.sem;
    BlockedQueued(s, p);
    var m := if u == c.empty then st.empty else if u == c.full then st.full else st.mutex;
    var k: nat :| k < |s.sems[u].sem.queue| && s.sems[u].sem.queue[k] == p;
    WaitsInStage(st, u == c.mutex, u == c.empty, k);
    assert c.ps[m.queue[k]] == c.ps[i];
  }

  lemma EnabledAwake(s: State, st: Producers.Stage, c: Crew, i: nat)
    requires Inv(s) && Producers.Inv(st) && Shows(s, st, c) && i < |c.ps| && Producers.Enabled(st, i)
    ensures c.ps[i] < |s.pcb| && !Asleep(s.pcb[c.ps[i]], c)
  {
    hide Inv, HoldsAll, Producers.Inv, Asleep, Producers.Enabled;
    if Asleep(s.pcb[c.ps[i]], c) { SleeperWaits(s, st, c, i); }
  }

  lemma BlockedQueued(s: State, p: nat)
    requires Inv(s) && p < |s.pcb| && s.pcb[p].status == Blocked && s.pcb[p].kont.InSem?
    ensures 0 <= s.pcb[p].kont.sem < |s.sems| && p in s.sems[s.pcb[p].kont.sem].sem.queue
  {
    hide Shape, Parents, ChildCounts, ZombieCounts, WaitQueues, Konts, SemRefs;
  }

  lemma WaitsInStage(st: Producers.Stage, mutex: bool, empty: bool, k: nat)
    requires Producers.Inv(st)
    ensures var m := if mutex then st.mutex else if empty then st.empty else st.full;
      k < |m.queue| ==> 0 <= m.queue[k] < |st.ws| && !Producers.Enabled(st, m.queue[k])
  {}

  // However the kernel schedules them, and whatever other processes do meanwhile: never two workers in the
  // critical section, never more than 32 items nor fewer than none, and some worker does not sleep.
  lemma InKernel(s: State, log: Log, es: seq<Event>, t: State, log': Log, roles: seq<bool>, c: Crew)
    returns (st: Producers.Stage)
    requires Inv(s) && Shows(s, Producers.Init(roles), c) && true in roles && false in roles
    requires Runs(s, log, es, t, log') && Disciplined(s, es, Producers.Init(roles), c)
    ensures Inv(t) && Shows(t, st, c)
    ensures 0 <= st.produced - st.consumed <= Producers.BUF_SIZE
    ensures Producers.Num(st.ws, true, Producers.Inside) + Producers.Num(st.ws, false, Producers.Inside) <= 1
    ensures exists i: nat :: i < |c.ps| && c.ps[i] < |t.pcb| && !Asleep(t.pcb[c.ps[i]], c)
  {
    hide Inv, Shows, Disciplined, Runs, Producers.Inv, Asleep;
    Producers.InitInv(roles);
    Crewed(s, Producers.Init(roles), c);
    var moves;
    moves, st := Projects(s, log, es, t, log', Producers.Init(roles), c);
    Producers.EveryRun(roles, moves, st);
    var i: nat :| Producers.Enabled(st, i);
    Crewed(t, st, c);
    EnabledAwake(t, st, c, i);
  }
}

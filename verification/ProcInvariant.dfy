// What every step of the process and semaphore protocol keeps.
module ProcInvariant {
  import opened Bags
  import opened Procs

  predicate Alive(p: Proc) { p.status == Ready || p.status == Running || p.status == Blocked }

  // ---- keys to count by ----

  function ParentKey(p: Proc): multiset<int> {
    if p.status != Unused && p.parent != NULL then multiset{p.parent} else multiset{}
  }

  function ZombieKey(p: Proc): multiset<int> {
    if p.status == Zombie && p.parent != NULL then multiset{p.parent} else multiset{}
  }

  function UsemKey(p: Proc): multiset<int> { multiset(p.usems) }

  function Children(pcb: seq<Proc>): multiset<int> { Bag(pcb, ParentKey) }
  function Zombies(pcb: seq<Proc>): multiset<int> { Bag(pcb, ZombieKey) }
  function UsemSlots(pcb: seq<Proc>): multiset<int> { Bag(pcb, UsemKey) }

  // A process that sem_v has woken from sys_wait's sem_p but that has not gone on yet.
  function Grant(p: Proc): int {
    if p.kont == InWait && p.status != Blocked then 1 else 0
  }

  // ---- the invariant, one concern at a time ----

  // Exactly the current process is RUNNING; entry 0 idles and is never blocked. The first shell has pid 1.
  ghost predicate Shape(s: State) {
    && |s.pcb| == PROC_NUM && |s.sems| == SEM_NUM && s.curr < PROC_NUM && s.nextPid >= 2
    && (forall i: nat | i < PROC_NUM :: s.pcb[i].status == Running <==> i == s.curr)
    && (s.pcb[0].status == Running || s.pcb[0].status == Ready) && s.pcb[0].kont == User
  }

  // A parent is another process that has neither exited nor been reaped.
  ghost predicate Parents(pcb: seq<Proc>) {
    forall i: nat | i < |pcb| && pcb[i].status != Unused && pcb[i].parent != NULL ::
      0 <= pcb[i].parent < |pcb| && pcb[i].parent != i && Alive(pcb[pcb[i].parent])
  }

  ghost predicate ChildCounts(pcb: seq<Proc>) {
    forall q: nat | q < |pcb| && Alive(pcb[q]) :: pcb[q].childNum == Children(pcb)[q]
  }

  // Every zombie child is announced once: in the semaphore's value or in a grant under way.
  ghost predicate ZombieCounts(pcb: seq<Proc>) {
    forall q: nat | q < |pcb| && Alive(pcb[q]) ::
      pcb[q].zsem.value >= 0 && Zombies(pcb)[q] == pcb[q].zsem.value + Grant(pcb[q])
  }

  // Only the parent itself ever waits on its zombie semaphore, and only with value 0.
  ghost predicate WaitQueues(pcb: seq<Proc>) {
    forall q: nat | q < |pcb| ::
      if pcb[q].status == Blocked && pcb[q].kont == InWait then pcb[q].zsem == Sem(0, [q]) else pcb[q].zsem.queue == []
  }

  // A blocked process is inside a semaphore operation, and only a live one is inside the kernel.
  ghost predicate Konts(pcb: seq<Proc>) {
    forall i: nat | i < |pcb| ::
      && pcb[i].kont != InWaitLoop
      && (pcb[i].status == Blocked ==> pcb[i].kont != User)
      && (pcb[i].kont != User ==> Alive(pcb[i]))
  }

  // The queue of a user semaphore holds exactly the processes blocked on it, each once, and
  // is empty unless the value is 0.
  ghost predicate SemQueues(pcb: seq<Proc>, sems: seq<USem>) {
    && (forall u: nat | u < |sems| :: sems[u].sem.queue != [] ==> sems[u].sem.value == 0)
    && (forall u: nat, i: nat | u < |sems| && i < |sems[u].sem.queue| ::
      var w := sems[u].sem.queue[i]; 0 <= w < |pcb| && pcb[w].status == Blocked && pcb[w].kont == InSem(u))
    && (forall u: nat, i: nat, j: nat | u < |sems| && i < j < |sems[u].sem.queue| ::
      sems[u].sem.queue[i] != sems[u].sem.queue[j])
    && (forall w: nat | w < |pcb| && pcb[w].status == Blocked && pcb[w].kont.InSem? ::
      0 <= pcb[w].kont.sem < |sems| && w in sems[pcb[w].kont.sem].sem.queue)
  }

  // What a slot of a process may hold.
  predicate SlotOk(u: int, n: nat) { u == NULL || (0 <= u < n && u != SERIAL) }

  // The kernel holds the semaphore of the serial line.
  function KernelRef(u: nat): nat { if u == SERIAL then 1 else 0 }

  // Every other reference on a semaphore is a slot of some process, and the other way round; whoever is
  // blocked on a user semaphore has it open.
  ghost predicate SemRefs(pcb: seq<Proc>, sems: seq<USem>) {
    && (forall i: nat | i < |pcb| :: |pcb[i].usems| == MAX_USEM)
    && (forall i: nat, k: nat | i < |pcb| && k < |pcb[i].usems| ::
      SlotOk(pcb[i].usems[k], |sems|))
    && (forall i: nat | i < |pcb| && !Alive(pcb[i]) :: pcb[i].usems == NoSlots(MAX_USEM))
    && (forall u: nat | u < |sems| :: sems[u].ref == UsemSlots(pcb)[u] + KernelRef(u))
    && (forall i: nat | i < |pcb| && pcb[i].status == Blocked && pcb[i].kont.InSem? ::
      pcb[i].kont.sem == SERIAL || pcb[i].kont.sem in pcb[i].usems)
  }

  ghost predicate Core(pcb: seq<Proc>, sems: seq<USem>) {
    && Parents(pcb) && ChildCounts(pcb) && ZombieCounts(pcb) && WaitQueues(pcb) && Konts(pcb)
    && SemQueues(pcb, sems) && SemRefs(pcb, sems)
  }

  ghost predicate Inv(s: State) {
    Shape(s) && Core(s.pcb, s.sems)
  }

  // ---- scheduling ----

  // READY and RUNNING are the same to everything but the scheduler.
  ghost predicate SameButRun(pcb: seq<Proc>, pcb': seq<Proc>) {
    && |pcb'| == |pcb|
    && forall i: nat | i < |pcb| ::
      pcb'[i] == pcb[i].(status := pcb'[i].status)
      && (pcb'[i].status == pcb[i].status || (pcb'[i].status in {Ready, Running} && pcb[i].status in {Ready, Running}))
  }

  lemma {:induction false} BagSameKeys(s: seq<Proc>, t: seq<Proc>, key: Proc -> multiset<int>)
    requires |s| == |t| && forall i: nat | i < |s| :: key(t[i]) == key(s[i])
    ensures Bag(t, key) == Bag(s, key)
  {
    if s != [] { BagSameKeys(s[..|s| - 1], t[..|t| - 1], key); }
  }

  lemma SameKeys(pcb: seq<Proc>, pcb': seq<Proc>)
    requires SameButRun(pcb, pcb')
    ensures Children(pcb') == Children(pcb) && Zombies(pcb') == Zombies(pcb) && UsemSlots(pcb') == UsemSlots(pcb)
    ensures forall i: nat | i < |pcb| :: Alive(pcb'[i]) == Alive(pcb[i]) && Grant(pcb'[i]) == Grant(pcb[i])
  {
    hide Bag;
    BagSameKeys(pcb, pcb', ParentKey);
    BagSameKeys(pcb, pcb', ZombieKey);
    BagSameKeys(pcb, pcb', UsemKey);
  }

  lemma CoreSame(pcb: seq<Proc>, pcb': seq<Proc>, sems: seq<USem>)
    requires Core(pcb, sems) && SameButRun(pcb, pcb')
    ensures Core(pcb', sems)
  {
    hide SameButRun, Children, Zombies, UsemSlots, Alive, Grant, Parents, ChildCounts, ZombieCounts, WaitQueues, Konts,
      SemQueues, SemRefs;
    SameKeys(pcb, pcb');
    SameCounts(pcb, pcb', sems);
    SameQueues(pcb, pcb', sems);
  }

  lemma SameCounts(pcb: seq<Proc>, pcb': seq<Proc>, sems: seq<USem>)
    requires Parents(pcb) && ChildCounts(pcb) && ZombieCounts(pcb) && SameButRun(pcb, pcb')
    requires Children(pcb') == Children(pcb) && Zombies(pcb') == Zombies(pcb)
    requires forall i: nat | i < |pcb| :: Alive(pcb'[i]) == Alive(pcb[i]) && Grant(pcb'[i]) == Grant(pcb[i])
    ensures Parents(pcb') && ChildCounts(pcb') && ZombieCounts(pcb')
  {
    hide Children, Zombies, Alive, Grant;
  }

  lemma SameQueues(pcb: seq<Proc>, pcb': seq<Proc>, sems: seq<USem>)
    requires WaitQueues(pcb) && Konts(pcb) && SemQueues(pcb, sems) && SemRefs(pcb, sems) && SameButRun(pcb, pcb')
    requires UsemSlots(pcb') == UsemSlots(pcb)
    requires forall i: nat | i < |pcb| :: Alive(pcb'[i]) == Alive(pcb[i])
    ensures WaitQueues(pcb') && Konts(pcb') && SemQueues(pcb', sems) && SemRefs(pcb', sems)
  {
    hide UsemSlots, Alive;
    forall w: nat | w < |pcb| ensures pcb'[w].status == Blocked <==> pcb[w].status == Blocked {}
    assert SemQueues(pcb', sems) by { hide SemRefs, WaitQueues, Konts; }
  }

  // Some entry d ahead is READY, so the scheduler's loop stops.
  lemma {:induction false} NextReadyFinds(pcb: seq<Proc>, from: nat, n: nat, d: nat)
    requires |pcb| == PROC_NUM && from < PROC_NUM && d < n <= PROC_NUM && pcb[(from + d) % PROC_NUM].status == Ready
    ensures NextReady(pcb, from, n) < PROC_NUM
    decreases n
  {
    if pcb[from].status != Ready {
      NextReadyFinds(pcb, (from + 1) % PROC_NUM, n - 1, d - 1);
    }
  }

  // schedule finds a process within one turn of the ring, and exactly that one is then running.
  lemma ScheduleShape(s: State)
    requires |s.pcb| == PROC_NUM && |s.sems| == SEM_NUM && s.curr < PROC_NUM && s.nextPid >= 2
    requires forall i: nat | i < PROC_NUM :: s.pcb[i].status != Running
    requires s.pcb[0].status == Ready && s.pcb[0].kont == User
    ensures Shape(Schedule(s)) && SameButRun(s.pcb, Schedule(s).pcb) && Schedule(s).sems == s.sems
    ensures s.pcb[Schedule(s).curr].status == Ready
  {
    var from := (s.curr + 1) % PROC_NUM;
    NextReadyFinds(s.pcb, from, PROC_NUM, (PROC_NUM - from) % PROC_NUM);
  }

  lemma ScheduleInv(s: State)
    requires |s.pcb| == PROC_NUM && |s.sems| == SEM_NUM && s.curr < PROC_NUM && s.nextPid >= 2
    requires Core(s.pcb, s.sems)
    requires forall i: nat | i < PROC_NUM :: s.pcb[i].status != Running
    requires s.pcb[0].status == Ready && s.pcb[0].kont == User
    ensures Inv(Schedule(s))
  {
    hide Core, SameButRun, Schedule;
    ScheduleShape(s);
    CoreSame(s.pcb, Schedule(s).pcb, s.sems);
  }

  lemma YieldInv(s: State)
    requires Inv(s) && Curr(s).kont == User
    ensures Inv(Leave(s, Ready, User))
  {
    hide Core;
    var pcb' := s.pcb[s.curr := Curr(s).(status := Ready, kont := User)];
    assert SameButRun(s.pcb, pcb');
    CoreSame(s.pcb, pcb', s.sems);
    ScheduleInv(s.(pcb := pcb'));
  }

  // ---- fork ----

  lemma NoSlotsEmpty(n: nat, u: nat)
    ensures multiset(NoSlots(n))[u] == 0
  {
    var slots := NoSlots(n);
    assert forall x | x in slots :: x == NULL;
    assert u !in multiset(slots);
  }

  // Two entries change: bags follow.
  lemma BagTwo(pcb: seq<Proc>, key: Proc -> multiset<int>, c: nat, c': Proc, a: nat, a': Proc, k: int)
    requires c < |pcb| && a < |pcb| && a != c
    ensures Bag(pcb[c := c'][a := a'], key)[k] + key(pcb[c])[k] + key(pcb[a])[k]
      == Bag(pcb, key)[k] + key(c')[k] + key(a')[k]
  {
    hide Bag;
    BagAt(pcb, key, c, c', k);
    BagAt(pcb[c := c'], key, a, a', k);
  }

  ghost predicate ForkedFrom(pcb: seq<Proc>, pcb': seq<Proc>, c: nat, a: nat) {
    && c < |pcb| && a < |pcb| && a != c && |pcb'| == |pcb|
    && pcb[c].status == Running && pcb[a].status == Unused
    && pcb' == pcb[c := pcb[c].(childNum := pcb[c].childNum + 1)][a := pcb'[a]]
    && pcb'[a].status == Ready && pcb'[a].parent == c && pcb'[a].childNum == 0 && pcb'[a].zsem == Sem(0, [])
    && pcb'[a].usems == pcb[c].usems && pcb'[a].kont == User
  }

  lemma ForkParents(pcb: seq<Proc>, pcb': seq<Proc>, c: nat, a: nat)
    requires Parents(pcb) && ForkedFrom(pcb, pcb', c, a)
    ensures Parents(pcb')
  {}

  lemma ForkCounts(pcb: seq<Proc>, pcb': seq<Proc>, c: nat, a: nat)
    requires Parents(pcb) && ChildCounts(pcb) && ZombieCounts(pcb) && ForkedFrom(pcb, pcb', c, a)
    ensures ChildCounts(pcb') && ZombieCounts(pcb')
  {
    hide Bag;
    NoChildren(pcb, a);
    var c', a' := pcb'[c], pcb'[a];
    assert pcb' == pcb[c := c'][a := a'];
    hide Parents;
    forall q: nat | q < |pcb'| && Alive(pcb'[q])
      ensures pcb'[q].childNum == Children(pcb')[q]
      ensures pcb'[q].zsem.value >= 0 && Zombies(pcb')[q] == pcb'[q].zsem.value + Grant(pcb'[q])
    {
      BagTwo(pcb, ParentKey, c, c', a, a', q);
      BagTwo(pcb, ZombieKey, c, c', a, a', q);
      assert ParentKey(a') == multiset{c} && ParentKey(c') == ParentKey(pcb[c]);
      if q != a && q != c { assert pcb'[q] == pcb[q]; }
    }
  }

  // A process that is not alive is nobody's parent.
  lemma NoChildren(pcb: seq<Proc>, a: nat)
    requires Parents(pcb) && a < |pcb| && !Alive(pcb[a])
    ensures Children(pcb)[a] == 0 && Zombies(pcb)[a] == 0
  {
    BagNone(pcb, ParentKey, a);
    BagNone(pcb, ZombieKey, a);
  }

  lemma ForkRefs(pcb: seq<Proc>, pcb': seq<Proc>, sems: seq<USem>, c: nat, a: nat)
    requires SemRefs(pcb, sems) && ForkedFrom(pcb, pcb', c, a)
    ensures SemRefs(pcb', AddRefs(sems, pcb[c].usems))
  {
    hide Bag;
    var sems', c', a' := AddRefs(sems, pcb[c].usems), pcb'[c], pcb'[a];
    assert pcb' == pcb[c := c'][a := a'];
    forall u: nat | u < |sems| ensures sems'[u].ref == UsemSlots(pcb')[u] + KernelRef(u) {
      BagTwo(pcb, UsemKey, c, c', a, a', u);
      NoSlotsEmpty(MAX_USEM, u);
    }
  }

  lemma ForkQueues(pcb: seq<Proc>, pcb': seq<Proc>, sems: seq<USem>, c: nat, a: nat)
    requires WaitQueues(pcb) && Konts(pcb) && SemQueues(pcb, sems) && ForkedFrom(pcb, pcb', c, a)
    ensures WaitQueues(pcb') && Konts(pcb') && SemQueues(pcb', AddRefs(sems, pcb[c].usems))
  {
    var sems' := AddRefs(sems, pcb[c].usems);
    assert forall u: nat | u < |sems| :: sems'[u].sem == sems[u].sem;
    assert forall i: nat | i < |pcb| && i != a && i != c :: pcb'[i] == pcb[i];
    hide AddRefs;
    assert WaitQueues(pcb') && Konts(pcb') by { hide SemQueues; }
    hide WaitQueues, Konts;
    assert SemQueues(pcb', sems');
  }

  lemma ForkShape(s: State)
    requires Shape(s)
    ensures Shape(Fork(s))
    ensures var a := FirstUnused(s.pcb, 1);
      if a < |s.pcb| then ForkedFrom(s.pcb, Fork(s).pcb, s.curr, a)
        && Fork(s).sems == AddRefs(s.sems, Curr(s).usems) else Fork(s) == s
  {}

  lemma ForkInv(s: State)
    requires Inv(s)
    ensures Inv(Fork(s))
  {
    hide Parents, ChildCounts, ZombieCounts, WaitQueues, Konts, SemQueues, SemRefs, ForkedFrom, AddRefs;
    ForkShape(s);
    hide Fork, Shape;
    var a, pcb' := FirstUnused(s.pcb, 1), Fork(s).pcb;
    if a < |s.pcb| {
      ForkParents(s.pcb, pcb', s.curr, a);
      ForkCounts(s.pcb, pcb', s.curr, a);
      ForkQueues(s.pcb, pcb', s.sems, s.curr, a);
      ForkRefs(s.pcb, pcb', s.sems, s.curr, a);
    }
  }

  // What fork does, said of the tables before and after: nothing if no entry behind the idle process is
  // unused; otherwise one entry that was unused is a copy of the running process, ready, its child, and
  // has the next pid.
  lemma ForkMeans(s: State) returns (a: nat)
    requires Inv(s)
    ensures a == FirstUnused(s.pcb, 1)
    ensures a == |s.pcb| <==> forall i: nat | 1 <= i < |s.pcb| :: s.pcb[i].status != Unused
    ensures a == |s.pcb| ==> Fork(s) == s
    ensures a != |s.pcb| ==>
      && 1 <= a < |s.pcb| && s.pcb[a].status == Unused
      && Fork(s).pcb[a] == Curr(s).(pid := s.nextPid, status := Ready, parent := s.curr, childNum := 0,
        exitCode := s.pcb[a].exitCode, zsem := Sem(0, []), kont := User)
      && Fork(s).pcb == s.pcb[s.curr := Curr(s).(childNum := Curr(s).childNum + 1)][a := Fork(s).pcb[a]]
    ensures a != |s.pcb| ==> Fork(s).curr == s.curr && Fork(s).nextPid == s.nextPid + 1 >= 3
    ensures |Fork(s).sems| == |s.sems| && forall u: nat | u < |s.sems| :: Fork(s).sems[u].sem == s.sems[u].sem
  {
    hide Core;
    a := FirstUnused(s.pcb, 1);
  }
}

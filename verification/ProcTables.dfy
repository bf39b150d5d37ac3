// kernel/src/proc.c, sem.c and the process half of syscall.c in place: the table of processes, the
// table of user semaphores, and the wait lists drawn from the pool. Every method does to the
// abstract state exactly what the transition system of module Procs says.
module ProcTables {
  import opened Lists
  import opened Procs
  import opened ProcInvariant
  import opened ProcSteps
  import opened ProcSems
  import opened ProcExit
  import opened ProcRuns
  import opened ProcFair

  datatype Pcb = Pcb(pid: int, status: Status, parent: int, childNum: int, exitCode: int, zombies: int,
                     usems: seq<int>, files: seq<int>, cwd: int, kont: Kont)
  // One of the user semaphores, or, as the last one, that of the serial line.
  datatype UserSem = UserSem(value: int, ref: int)

  type Entry = i: nat | i < PROC_NUM

  // The list heads: the wait list of each process's zombie semaphore, then of each user semaphore.
  const LISTS := 1 + PROC_NUM + SEM_NUM

  function ZombieList(p: nat): nat { 1 + p }
  function UserList(u: nat): nat { 1 + PROC_NUM + u }

  function ProcOf(p: Pcb, queue: seq<int>): Proc {
    Proc(p.pid, p.status, p.parent, p.childNum, p.exitCode, Sem(p.zombies, queue), p.usems, p.files, p.cwd, p.kont)
  }

  function UsemOfRec(s: UserSem, queue: seq<int>): USem { USem(Sem(s.value, queue), s.ref) }

  function TableOf(pcb: seq<Pcb>, queues: seq<seq<int>>): (t: seq<Proc>)
    requires |pcb| == PROC_NUM && |queues| == LISTS
    ensures |t| == PROC_NUM
  {
    seq(PROC_NUM, i requires 0 <= i < PROC_NUM => ProcOf(pcb[i], queues[ZombieList(i)]))
  }

  function SemsOf(sems: seq<UserSem>, queues: seq<seq<int>>): (t: seq<USem>)
    requires |sems| == SEM_NUM && |queues| == LISTS
    ensures |t| == SEM_NUM
  {
    seq(SEM_NUM, u requires 0 <= u < SEM_NUM => UsemOfRec(sems[u], queues[UserList(u)]))
  }

  // ---- the semaphore with list head h, a zombie semaphore or a user one ----

  function SemAt(s: State, h: nat): Sem
    requires |s.pcb| == PROC_NUM && |s.sems| == SEM_NUM && 1 <= h < LISTS
  {
    if h <= PROC_NUM then s.pcb[h - 1].zsem else s.sems[h - 1 - PROC_NUM].sem
  }

  function SetSem(s: State, h: nat, m: Sem): (t: State)
    requires |s.pcb| == PROC_NUM && |s.sems| == SEM_NUM && 1 <= h < LISTS
    ensures |t.pcb| == PROC_NUM && |t.sems| == SEM_NUM && t.curr == s.curr
  {
    if h <= PROC_NUM then s.(pcb := s.pcb[h - 1 := s.pcb[h - 1].(zsem := m)])
    else s.(sems := s.sems[h - 1 - PROC_NUM := s.sems[h - 1 - PROC_NUM].(sem := m)])
  }

  // sem_p by the running process, which goes on at k if it has to wait.
  function POn(s: State, h: nat, k: Kont): State
    requires |s.pcb| == PROC_NUM && |s.sems| == SEM_NUM && 1 <= h < LISTS && s.curr < PROC_NUM
  {
    var m := SemAt(s, h);
    if m.value == 0 then Leave(SetSem(s, h, m.(queue := m.queue + [s.curr])), Blocked, k)
    else SetSem(s, h, m.(value := m.value - 1))
  }

  // sem_v
  function VOn(s: State, h: nat): State
    requires |s.pcb| == PROC_NUM && |s.sems| == SEM_NUM && 1 <= h < LISTS
  {
    var m := SemAt(s, h);
    var t := SetSem(s, h, Up(m));
    t.(pcb := Wake(t.pcb, Woken(m)))
  }

  lemma QueueSet(s: State, t: State, pcb: seq<Pcb>, sems: seq<UserSem>, queues: seq<seq<int>>, h: nat, x: seq<int>,
      y: seq<int>)
    requires |pcb| == PROC_NUM && |sems| == SEM_NUM && |queues| == LISTS && 1 <= h < LISTS
    requires s.pcb == TableOf(pcb, queues) && s.sems == SemsOf(sems, queues)
    requires t.pcb == TableOf(pcb, queues[h := x][FREE := y]) && t.sems == SemsOf(sems, queues[h := x][FREE := y])
    requires t.curr == s.curr && t.nextPid == s.nextPid
    ensures t == SetSem(s, h, SemAt(s, h).(queue := x)) && SemAt(s, h).queue == queues[h]
  {}

  lemma TableSet(pcb: seq<Pcb>, queues: seq<seq<int>>, i: nat, p: Pcb)
    requires |pcb| == PROC_NUM && |queues| == LISTS && i < PROC_NUM
    ensures TableOf(pcb[i := p], queues) == TableOf(pcb, queues)[i := ProcOf(p, queues[ZombieList(i)])]
    ensures TableOf(pcb, queues)[i] == ProcOf(pcb[i], queues[ZombieList(i)])
  {}

  lemma SemsSet(sems: seq<UserSem>, queues: seq<seq<int>>, u: nat, m: UserSem)
    requires |sems| == SEM_NUM && |queues| == LISTS && u < SEM_NUM
    ensures SemsOf(sems[u := m], queues) == SemsOf(sems, queues)[u := UsemOfRec(m, queues[UserList(u)])]
    ensures SemsOf(sems, queues)[u] == UsemOfRec(sems[u], queues[UserList(u)])
  {}

  // Within one round the scheduler meets entry 0.
  lemma IdleFound(t: seq<Proc>, from: nat)
    requires |t| == PROC_NUM && from < PROC_NUM && t[0].status == Ready
    ensures NextReady(t, from, PROC_NUM) < PROC_NUM
  {
    NextReadyFinds(t, from, PROC_NUM, (PROC_NUM - from) % PROC_NUM);
  }

  lemma ReadyStep(t: seq<Proc>, next: nat, n: nat)
    requires |t| == PROC_NUM && next < PROC_NUM && NextReady(t, next, n) < PROC_NUM
    ensures n > 0
    ensures t[next].status == Ready ==> NextReady(t, next, n) == next
    ensures t[next].status != Ready ==> NextReady(t, next, n) == NextReady(t, (next + 1) % PROC_NUM, n - 1)
  {}

  // A fresh process image in entry a.
  function Allocated(s: State, a: nat): State
    requires a < |s.pcb|
  {
    s.(pcb := s.pcb[a := Blank().(pid := s.nextPid, status := Uninit, exitCode := s.pcb[a].exitCode)],
      nextPid := s.nextPid + 1)
  }

  class ProcTable {
    const pcb: array<Pcb>
    const userSem: array<UserSem>
    const lists: ListPool
    var curr: Entry
    var nextPid: int

    ghost predicate Wellformed()
      reads this, pcb, userSem, lists, lists.prev, lists.next, lists.item
    {
      && pcb.Length == PROC_NUM && userSem.Length == SEM_NUM
      && lists.Valid() && lists.heads == LISTS
    }

    // The abstract state: what module Procs works on.
    ghost function Table(): (t: seq<Proc>)
      reads this, pcb, userSem, lists, lists.prev, lists.next, lists.item
      ensures |t| == PROC_NUM
    {
      if Wellformed() then TableOf(pcb[..], lists.Queues()) else seq(PROC_NUM, _ => Blank())
    }

    ghost function Sems(): (t: seq<USem>)
      reads this, pcb, userSem, lists, lists.prev, lists.next, lists.item
      ensures |t| == SEM_NUM
    {
      if Wellformed() then SemsOf(userSem[..], lists.Queues()) else seq(SEM_NUM, _ => USem(Sem(0, []), 0))
    }

    // The arrays and lists of the table.
    ghost function Parts(): set<object> { {pcb, userSem, lists, lists.prev, lists.next, lists.item} }

    ghost function Abs(): State
      reads this, pcb, userSem, lists, lists.prev, lists.next, lists.item
    {
      State(Table(), curr, nextPid, Sems())
    }

    // init_proc, and the first process of init_user_and_go; both stand in directory cwd.
    constructor (cwd: int)
      ensures Wellformed() && Abs() == Init(cwd) && fresh(Parts())
    {
      pcb := new Pcb[PROC_NUM](_ => Pcb(0, Unused, NULL, 0, 0, 0, NoSlots(MAX_USEM), NoSlots(MAX_UFILE), NULL, User));
      userSem := new UserSem[SEM_NUM](u => UserSem(0, KernelRef(u)));
      lists := new ListPool(LISTS);
      curr, nextPid := 0, 1;
      new;
      pcb[0] := pcb[0].(status := Running, cwd := cwd);
      pcb[1] := pcb[1].(pid := nextPid, status := Ready, cwd := cwd);
      nextPid := nextPid + 1;
      StartIs(cwd);
    }

    lemma StartIs(cwd: int)
      requires Wellformed() && curr == 0 && nextPid == 2
      requires forall h | 0 < h < LISTS :: lists.Queue(h) == []
      requires forall u: nat | u < SEM_NUM :: userSem[u] == UserSem(0, KernelRef(u))
      requires forall i | 0 <= i < PROC_NUM :: ProcOf(pcb[i], []) == Init(cwd).pcb[i]
      ensures Abs() == Init(cwd)
    {
      hide Lists.ListPool.Valid;
      forall i: nat | i < PROC_NUM ensures Table()[i] == Init(cwd).pcb[i] { assert lists.Queue(ZombieList(i)) == []; }
      forall u: nat | u < SEM_NUM ensures Sems()[u] == Init(cwd).sems[u] { assert lists.Queue(UserList(u)) == []; }
    }

    method Schedule()
      requires Wellformed() && pcb[0].status == Ready
      modifies this`curr, pcb
      ensures Wellformed() && Abs() == Procs.Schedule(old(Abs()))
    {
      hide Lists.ListPool.Valid, Lists.ListPool.Queues, TableOf, SemsOf, NextReady;
      var next := NextProc();
      TableSet(pcb[..], lists.Queues(), next, pcb[next].(status := Running));
      pcb[next] := pcb[next].(status := Running);
      curr := next;
    }

    // The loop of schedule has no bound of its own; it stops because entry 0 can always run.
    method NextProc() returns (next: nat)
      requires Wellformed() && pcb[0].status == Ready
      ensures next < PROC_NUM && next == NextReady(Table(), (curr + 1) % PROC_NUM, PROC_NUM)
        && pcb[next].status == Ready
    {
      hide Lists.ListPool.Valid, Lists.ListPool.Queues, TableOf, SemsOf, NextReady, Table;
      SlotsAre();
      next := (curr + 1) % PROC_NUM;
      ghost var t, from, n := Table(), next, PROC_NUM;
      IdleFound(t, from);
      while pcb[next].status != Ready
        invariant next < PROC_NUM
        invariant 0 <= n <= PROC_NUM && NextReady(t, from, PROC_NUM) == NextReady(t, next, n) < PROC_NUM
        decreases n
      {
        ReadyStep(t, next, n);
        next := (next + 1) % PROC_NUM;
        n := n - 1;
      }
      ReadyStep(t, next, n);
    }

    // *p = rec: one entry of the table.
    method Store(p: nat, rec: Pcb)
      requires Wellformed() && p < PROC_NUM
      modifies pcb
      ensures Wellformed() && Sems() == old(Sems()) && pcb[..] == old(pcb[..])[p := rec]
      ensures Table() == old(Table())[p := ProcOf(rec, old(Table())[p].zsem.queue)]
    {
      hide Lists.ListPool.Valid, Lists.ListPool.Queues, TableOf, SemsOf;
      TableSet(pcb[..], lists.Queues(), p, rec);
      pcb[p] := rec;
    }

    // proc_block and proc_yield: the running process is to go on at k.
    method Suspend(status: Status, k: Kont)
      requires Wellformed() && (if curr == 0 then status == Ready else pcb[0].status == Ready)
      modifies this`curr, pcb
      ensures Wellformed() && Abs() == Leave(old(Abs()), status, k)
    {
      hide Lists.ListPool.Valid, Lists.ListPool.Queues, TableOf, SemsOf, Procs.Schedule;
      TableSet(pcb[..], lists.Queues(), curr, pcb[curr].(status := status, kont := k));
      pcb[curr] := pcb[curr].(status := status, kont := k);
      Schedule();
    }

    function SemValue(h: nat): int
      requires pcb.Length == PROC_NUM && userSem.Length == SEM_NUM && 1 <= h < LISTS
      reads this, pcb, userSem
    {
      if h <= PROC_NUM then pcb[h - 1].zombies else userSem[h - 1 - PROC_NUM].value
    }

    method SetSemValue(h: nat, v: int)
      requires Wellformed() && 1 <= h < LISTS
      modifies pcb, userSem
      ensures Wellformed() && Abs() == SetSem(old(Abs()), h, SemAt(old(Abs()), h).(value := v))
      ensures forall i | 0 <= i < PROC_NUM :: pcb[i].status == old(pcb[i].status)
      ensures old(SemValue(h)) == SemAt(old(Abs()), h).value
    {
      hide Lists.ListPool.Valid, Lists.ListPool.Queues, TableOf, SemsOf;
      if h <= PROC_NUM {
        TableSet(pcb[..], lists.Queues(), h - 1, pcb[h - 1].(zombies := v));
        pcb[h - 1] := pcb[h - 1].(zombies := v);
      } else {
        var u := h - 1 - PROC_NUM;
        SemsSet(userSem[..], lists.Queues(), u, userSem[u].(value := v));
        userSem[u] := userSem[u].(value := v);
      }
    }

    lemma SemValueIs(h: nat)
      requires Wellformed() && 1 <= h < LISTS
      ensures SemValue(h) == SemAt(Abs(), h).value
    {
      hide Lists.ListPool.Valid, Lists.ListPool.Queues;
    }

    method SemP(h: nat, k: Kont) returns (away: bool)
      requires Wellformed() && 1 <= h < LISTS && pcb[0].status == Ready && curr != 0 && lists.Queue(FREE) != []
      modifies this`curr, pcb, userSem, lists`lists, lists`home, lists.prev, lists.next, lists.item
      ensures Wellformed() && Abs() == POn(old(Abs()), h, k)
      ensures away <==> SemAt(old(Abs()), h).value == 0
    {
      hide Lists.ListPool.Valid, Lists.ListPool.Queues, TableOf, SemsOf, Leave, SetSem, SemAt, SemValue;
      SemValueIs(h);
      ghost var s, q := Abs(), lists.Queues();
      if SemValue(h) == 0 {
        lists.Enqueue(h, curr);
        QueueSet(s, Abs(), pcb[..], userSem[..], q, h, q[h] + [curr], lists.Queue(FREE));
        Suspend(Blocked, k);
        return true;
      } else {
        SetSemValue(h, SemValue(h) - 1);
        return false;
      }
    }

    method SemV(h: nat)
      requires Wellformed() && 1 <= h < LISTS
      requires forall p | p in SemAt(Abs(), h).queue :: 0 <= p < PROC_NUM
      modifies pcb, userSem, lists`lists, lists`home, lists.prev, lists.next
      ensures Wellformed() && Abs() == VOn(old(Abs()), h)
    {
      hide Lists.ListPool.Valid, Lists.ListPool.Queues, TableOf, SemsOf, SetSem, SemAt, SemValue;
      SemValueIs(h);
      ghost var s, q := Abs(), lists.Queues();
      QueueIs(h);
      assert q[h] != [] ==> q[h][0] in SemAt(s, h).queue;
      var p, some := lists.Dequeue(h);
      if some {
        QueueSet(s, Abs(), pcb[..], userSem[..], q, h, q[h][1..], lists.Queue(FREE));
        TableSet(pcb[..], lists.Queues(), p, pcb[p].(status := Ready));
        pcb[p] := pcb[p].(status := Ready);
      } else {
        SetSemValue(h, SemValue(h) + 1);
      }
    }

    lemma QueueIs(h: nat)
      requires Wellformed() && 1 <= h < LISTS
      ensures SemAt(Abs(), h).queue == lists.Queue(h)
    {
      hide Lists.ListPool.Valid;
    }

    method ProcAlloc() returns (a: nat)
      requires Wellformed() && Inv(Abs())
      modifies this`nextPid, pcb, lists.prev, lists.next
      ensures Wellformed() && a == FirstUnused(old(Table()), 1)
      ensures a == PROC_NUM ==> Abs() == old(Abs())
      ensures a < PROC_NUM ==> Abs() == Allocated(old(Abs()), a)
    {
      hide Lists.ListPool.Valid, Lists.ListPool.Queues, TableOf, SemsOf, Inv, Shape, Core, Wellformed, Table, Sems;
      ghost var t := Table();
      ProcIs(0);
      for i := 1 to PROC_NUM
        invariant Wellformed() && Abs() == old(Abs()) && forall k | 1 <= k < i :: t[k].status != Unused
      {
        ProcIs(i);
        if pcb[i].status == Unused {
          InitPcb(i);
          return i;
        }
      }
      return PROC_NUM;
    }

    // What proc_alloc does to the unused entry it found.
    method InitPcb(i: nat)
      requires Wellformed() && Inv(Abs()) && 1 <= i < PROC_NUM && pcb[i].status == Unused
      modifies this`nextPid, pcb, lists.prev, lists.next
      ensures Wellformed() && Abs() == Allocated(old(Abs()), i)
    {
      hide Lists.ListPool.Valid, Lists.ListPool.Queues, TableOf, SemsOf, Inv, Shape, Core;
      ProcIs(i);
      UnusedQueue(Abs(), i);
      QueueIs(ZombieList(i));
      Store(i, Pcb(nextPid, Uninit, NULL, 0, pcb[i].exitCode, 0, NoSlots(MAX_USEM), NoSlots(MAX_UFILE), NULL, User));
      nextPid := nextPid + 1;
      lists.Init(ZombieList(i));
    }

    // The child in entry a shares the semaphore in slot i of the running process.
    method DupSlot(a: nat, i: nat)
      requires Wellformed() && a < PROC_NUM && a != curr && i < |pcb[curr].usems| && i < |pcb[a].usems|
      requires SlotOk(pcb[curr].usems[i], SEM_NUM)
      modifies pcb, userSem
      ensures Wellformed() && pcb[curr] == old(pcb[curr])
      ensures pcb[a].usems == old(if pcb[curr].usems[i] == NULL then pcb[a].usems
        else pcb[a].usems[i := pcb[curr].usems[i]])
      ensures Table() == old(Table())[a := old(Table())[a].(usems := pcb[a].usems)]
      ensures Sems() == Dupped(old(Sems()), pcb[curr].usems[i])
    {
      hide Lists.ListPool.Valid, Lists.ListPool.Queues, TableOf, SemsOf;
      ghost var queues := lists.Queues();
      var u := pcb[curr].usems[i];
      TableSet(pcb[..], queues, a, pcb[a]);
      if u != NULL {
        TableSet(pcb[..], queues, a, pcb[a].(usems := pcb[a].usems[i := u]));
        SemsSet(userSem[..], queues, u, userSem[u].(ref := userSem[u].ref + 1));
        pcb[a] := pcb[a].(usems := pcb[a].usems[i := u]);
        userSem[u] := userSem[u].(ref := userSem[u].ref + 1);
      }
    }

    // The part of proc_copycurr that does not concern files: the child, its parent, the open semaphores.
    method ProcCopycurr(a: nat)
      requires Wellformed() && a < PROC_NUM && a != curr
      requires |pcb[curr].usems| == MAX_USEM && pcb[a].usems == NoSlots(MAX_USEM)
      requires forall k | 0 <= k < MAX_USEM :: SlotOk(pcb[curr].usems[k], SEM_NUM)
      modifies pcb, userSem
      ensures Wellformed() && Abs() == Copied(old(Abs()), a)
    {
      hide Lists.ListPool.Valid, Lists.ListPool.Queues, TableOf, SemsOf, AddRefs, NoSlots, Wellformed, Table, Sems;
      ProcIs(curr);
      SetParent(a);
      DupSlots(a);
    }

    // The loop of proc_copycurr over the semaphores.
    method DupSlots(a: nat)
      requires Wellformed() && a < PROC_NUM && a != curr
      requires |pcb[curr].usems| == MAX_USEM && pcb[a].usems == NoSlots(MAX_USEM)
      requires forall k | 0 <= k < MAX_USEM :: SlotOk(pcb[curr].usems[k], SEM_NUM)
      modifies pcb, userSem
      ensures Wellformed() && Table() == old(Table())[a := old(Table())[a].(usems := old(pcb[curr].usems))]
      ensures Sems() == AddRefs(old(Sems()), old(pcb[curr].usems))
    {
      hide Lists.ListPool.Valid, Lists.ListPool.Queues, TableOf, SemsOf, AddRefs, Dupped, NoSlots, Wellformed, Table,
        Sems;
      ProcIs(a);
      ghost var slots, t, m := pcb[curr].usems, Table(), Sems();
      AddNoRefs(m, slots);
      for i := 0 to MAX_USEM
        invariant Dupping(a, i, slots, t, m)
      {
        hide Dupping;
        DupOne(a, i, slots, t, m);
      }
      assert slots[..MAX_USEM] == slots && pcb[a].usems == slots;
    }

    // The first i slots are copied.
    ghost predicate Dupping(a: nat, i: nat, slots: seq<int>, t: seq<Proc>, m: seq<USem>)
      reads this, pcb, userSem, lists, lists.prev, lists.next, lists.item
    {
      && Wellformed() && a < PROC_NUM && a != curr && i <= MAX_USEM == |slots| && |t| == PROC_NUM
      && pcb[curr].usems == slots && pcb[a].usems == slots[..i] + NoSlots(MAX_USEM)[i..]
      && Table() == t[a := t[a].(usems := pcb[a].usems)] && Sems() == AddRefs(m, slots[..i])
    }

    method DupOne(a: nat, i: nat, ghost slots: seq<int>, ghost t: seq<Proc>, ghost m: seq<USem>)
      requires Dupping(a, i, slots, t, m) && i < MAX_USEM
      requires forall k | 0 <= k < MAX_USEM :: SlotOk(slots[k], SEM_NUM)
      modifies pcb, userSem
      ensures Dupping(a, i + 1, slots, t, m)
    {
      hide Lists.ListPool.Valid, Lists.ListPool.Queues, TableOf, SemsOf, AddRefs, Dupped, NoSlots, Wellformed, Table,
        Sems;
      ProcIs(a);
      AddOneRef(m, slots, i);
      SlotCopied(slots, pcb[a].usems, i);
      DupSlot(a, i);
    }

    method SetParent(a: nat)
      requires Wellformed() && a < PROC_NUM && a != curr
      modifies pcb
      ensures Wellformed() && pcb[a].usems == old(pcb[a].usems) && pcb[curr].usems == old(pcb[curr].usems)
      ensures Sems() == old(Sems()) && Table()[curr].usems == pcb[curr].usems && Table()[a].usems == pcb[a].usems
      ensures Table() == old(Table())[curr := old(Table())[curr].(childNum := old(Table())[curr].childNum + 1)][
        a := old(Table())[a].(parent := curr)]
    {
      hide Lists.ListPool.Valid, Lists.ListPool.Queues, TableOf, SemsOf;
      ghost var queues := lists.Queues();
      TableSet(pcb[..], queues, curr, pcb[curr].(childNum := pcb[curr].childNum + 1));
      pcb[curr] := pcb[curr].(childNum := pcb[curr].childNum + 1);
      TableSet(pcb[..], queues, a, pcb[a].(parent := curr));
      pcb[a] := pcb[a].(parent := curr);
      TableSet(pcb[..], queues, curr, pcb[curr]);
      TableSet(pcb[..], queues, a, pcb[a]);
    }

    // Slot i of the running process gives up its semaphore.
    method CloseSlot(i: nat)
      requires Wellformed() && i < |pcb[curr].usems|
      requires SlotOk(pcb[curr].usems[i], SEM_NUM)
      modifies pcb, userSem
      ensures Wellformed() && pcb[curr].usems == old(pcb[curr].usems)[i := NULL]
      ensures Table() == old(Table())[curr := old(Table())[curr].(usems := pcb[curr].usems)]
      ensures Sems() == Undupped(old(Sems()), old(pcb[curr].usems[i]))
    {
      hide Lists.ListPool.Valid, Lists.ListPool.Queues, TableOf, SemsOf;
      ghost var queues := lists.Queues();
      var u := pcb[curr].usems[i];
      TableSet(pcb[..], queues, curr, pcb[curr]);
      if u != NULL {
        TableSet(pcb[..], queues, curr, pcb[curr].(usems := pcb[curr].usems[i := NULL]));
        SemsSet(userSem[..], queues, u, userSem[u].(ref := userSem[u].ref - 1));
        userSem[u] := userSem[u].(ref := userSem[u].ref - 1);
        pcb[curr] := pcb[curr].(usems := pcb[curr].usems[i := NULL]);
      }
    }

    method CloseSlots()
      requires Wellformed() && |pcb[curr].usems| == MAX_USEM
      requires forall k | 0 <= k < MAX_USEM :: SlotOk(pcb[curr].usems[k], SEM_NUM)
      modifies pcb, userSem
      ensures Wellformed()
      ensures Table() == old(Table())[curr := old(Table())[curr].(usems := NoSlots(MAX_USEM))]
      ensures Sems() == DropRefs(old(Sems()), old(pcb[curr].usems))
    {
      hide Lists.ListPool.Valid, Lists.ListPool.Queues, TableOf, SemsOf, DropRefs, Undupped, NoSlots, Wellformed, Table,
        Sems;
      ProcIs(curr);
      ghost var slots, t, m := pcb[curr].usems, Table(), Sems();
      DropNoRefs(m, slots);
      for i := 0 to MAX_USEM
        invariant Closing(i, slots, t, m)
      {
        hide Closing;
        CloseOne(i, slots, t, m);
      }
      assert slots[..MAX_USEM] == slots && pcb[curr].usems == NoSlots(MAX_USEM);
    }

    // The first i slots are closed.
    ghost predicate Closing(i: nat, slots: seq<int>, t: seq<Proc>, m: seq<USem>)
      reads this, pcb, userSem, lists, lists.prev, lists.next, lists.item
    {
      && Wellformed() && i <= MAX_USEM == |slots| && |t| == PROC_NUM
      && pcb[curr].usems == NoSlots(MAX_USEM)[..i] + slots[i..]
      && Table() == t[curr := t[curr].(usems := pcb[curr].usems)] && Sems() == DropRefs(m, slots[..i])
    }

    method CloseOne(i: nat, ghost slots: seq<int>, ghost t: seq<Proc>, ghost m: seq<USem>)
      requires Closing(i, slots, t, m) && i < MAX_USEM
      requires forall k | 0 <= k < MAX_USEM :: SlotOk(slots[k], SEM_NUM)
      modifies pcb, userSem
      ensures Closing(i + 1, slots, t, m)
    {
      hide Lists.ListPool.Valid, Lists.ListPool.Queues, TableOf, SemsOf, DropRefs, Undupped, NoSlots, Wellformed, Table,
        Sems;
      ProcIs(curr);
      DropOneRef(m, slots, i);
      SlotCleared(slots, pcb[curr].usems, i);
      CloseSlot(i);
    }

    method Orphans()
      requires Wellformed()
      modifies pcb
      ensures Wellformed() && Table() == Orphan(old(Table()), curr) && Sems() == old(Sems())
      ensures pcb[curr].usems == old(pcb[curr].usems)
    {
      hide Lists.ListPool.Valid, Lists.ListPool.Queues, TableOf, SemsOf, Orphan;
      ghost var was := pcb[..];
      for i := 0 to PROC_NUM
        invariant Wellformed()
        invariant forall k | 0 <= k < i :: pcb[k] == if was[k].parent == curr then was[k].(parent := NULL) else was[k]
        invariant forall k | i <= k < PROC_NUM :: pcb[k] == was[k]
      {
        if pcb[i].parent == curr {
          pcb[i] := pcb[i].(parent := NULL);
        }
      }
      OrphanTable(was, pcb[..], lists.Queues(), curr);
    }

    // proc_makezombie up to the open files and the directory
    method ProcMakezombie(code: int)
      requires Wellformed() && Inv(Abs()) && pcb[curr].kont == User
      modifies pcb, userSem, lists`lists, lists`home, lists.prev, lists.next
      ensures Wellformed() && Abs() == Dying(old(Abs()), code)
      ensures pcb[curr].files == old(pcb[curr].files) && pcb[curr].cwd == old(pcb[curr].cwd)
    {
      hide Lists.ListPool.Valid, Lists.ListPool.Queues, TableOf, SemsOf, Orphan, DropRefs, Inv, SignalParent, VOn,
        SemAt, Wake, Shape, Core, Zombies, Grant;
      ghost var s := Abs();
      SlotsAre();
      CurrFacts(s);
      ParentFacts(s);
      TableSet(pcb[..], lists.Queues(), curr, pcb[curr].(status := Zombie, exitCode := code));
      pcb[curr] := pcb[curr].(status := Zombie, exitCode := code);
      ghost var t0 := Table();
      Orphans();
      ghost var t1 := Table();
      OrphanFacts(s, t0, code);
      TableSet(pcb[..], lists.Queues(), curr, pcb[curr]);
      if pcb[curr].parent != NULL {
        SignalIsV(Abs(), t1[curr].parent);
        SemV(ZombieList(pcb[curr].parent));
      } else {
        SignalNobody(t1);
      }
      SignalFacts(s, t1, Table(), code);
      TableSet(pcb[..], lists.Queues(), curr, pcb[curr]);
      CloseSlots();
      TableSet(pcb[..], lists.Queues(), curr, pcb[curr]);
    }

    lemma SlotsAre()
      requires Wellformed()
      ensures pcb.Length == PROC_NUM && curr < PROC_NUM
      ensures forall i: nat | i < PROC_NUM ::
        Table()[i].usems == pcb[i].usems && Table()[i].files == pcb[i].files && Table()[i].cwd == pcb[i].cwd
        && Table()[i].kont == pcb[i].kont && Table()[i].parent == pcb[i].parent && Table()[i].status == pcb[i].status
        && Table()[i].childNum == pcb[i].childNum && Table()[i].zsem.value == pcb[i].zombies
        && Table()[i].exitCode == pcb[i].exitCode && Table()[i].pid == pcb[i].pid
    {
      hide Lists.ListPool.Valid, Lists.ListPool.Queues;
    }

    lemma ProcIs(i: nat)
      requires Wellformed() && i < PROC_NUM
      ensures pcb.Length == PROC_NUM && userSem.Length == SEM_NUM && curr < PROC_NUM
      ensures Table()[i] == ProcOf(pcb[i], Table()[i].zsem.queue)
    {
      hide Lists.ListPool.Valid, Lists.ListPool.Queues;
    }

    // ---- descriptors and working directories ----

    method SetFile(p: nat, fd: nat, k: int)
      requires Wellformed() && p < PROC_NUM && fd < |pcb[p].files|
      modifies pcb
      ensures Wellformed() && Sems() == old(Sems()) && pcb[p] == old(pcb[p]).(files := old(pcb[p]).files[fd := k])
      ensures |old(Table())[p].files| == |old(pcb[p]).files|
      ensures Table() == old(Table())[p := old(Table())[p].(files := old(Table())[p].files[fd := k])]
    {
      hide Lists.ListPool.Valid, Lists.ListPool.Queues, TableOf, SemsOf;
      TableSet(pcb[..], lists.Queues(), p, pcb[p].(files := pcb[p].files[fd := k]));
      pcb[p] := pcb[p].(files := pcb[p].files[fd := k]);
    }

    method SetCwd(p: nat, cwd: int)
      requires Wellformed() && p < PROC_NUM
      modifies pcb
      ensures Wellformed() && Sems() == old(Sems()) && pcb[p] == old(pcb[p]).(cwd := cwd)
      ensures Table() == old(Table())[p := old(Table())[p].(cwd := cwd)]
    {
      hide Lists.ListPool.Valid, Lists.ListPool.Queues, TableOf, SemsOf;
      TableSet(pcb[..], lists.Queues(), p, pcb[p].(cwd := cwd));
      pcb[p] := pcb[p].(cwd := cwd);
    }

    method ProcAddready(p: nat)
      requires Wellformed() && p < PROC_NUM
      modifies pcb
      ensures Wellformed() && Sems() == old(Sems()) && Table() == old(Table())[p := old(Table())[p].(status := Ready)]
    {
      hide Lists.ListPool.Valid, Lists.ListPool.Queues, TableOf, SemsOf;
      TableSet(pcb[..], lists.Queues(), p, pcb[p].(status := Ready));
      pcb[p] := pcb[p].(status := Ready);
    }

    // ---- system calls on processes and semaphores, one kernel entry each ----

    // sys_yield, and the timer, also while the idle process runs.
    method SysYield()
      requires Wellformed() && Inv(Abs()) && Enabled(Abs(), Yield)
      modifies this`curr, pcb
      ensures Wellformed() && Abs() == Step(old(Abs()), Yield) && Inv(Abs())
    {
      hide Lists.ListPool.Valid, Lists.ListPool.Queues, TableOf, SemsOf, Inv, Leave, Shape, Core, Zombies, Grant;
      SlotsAre();
      if curr != 0 { IdleReady(Abs()); }
      StepInv(Abs(), Yield);
      Suspend(Ready, User);
    }

    // proc_findzombie
    method ProcFindzombie() returns (z: nat)
      requires Wellformed()
      ensures z == FindZombie(Table(), curr, 0)
    {
      hide Lists.ListPool.Valid, Lists.ListPool.Queues, TableOf, SemsOf;
      SlotsAre();
      ghost var t := Table();
      for i := 0 to PROC_NUM
        invariant forall k | 0 <= k < i :: !(t[k].status == Zombie && t[k].parent == curr)
      {
        if pcb[i].parent == curr && pcb[i].status == Zombie { return i; }
      }
      return PROC_NUM;
    }

    // sys_wait behind its sem_p: the loop, and the reaping of the zombie it found.
    method WaitTail() returns (r: Ret, code: int)
      requires Wellformed() && pcb[0].status == Ready && curr != 0 && pcb[curr].status == Running
      modifies this`curr, pcb
      ensures Wellformed() && Abs() == WaitEnd(old(Abs()))
      ensures var z := FindZombie(old(Table()), old(curr), 0);
        if z == PROC_NUM then r == Away else r == Returned(old(Table())[z].pid) && code == old(Table())[z].exitCode
    {
      hide Lists.ListPool.Valid, Lists.ListPool.Queues, TableOf, SemsOf, Leave, Wellformed, Table, Sems;
      ProcIs(curr);
      code := 0;
      var z := ProcFindzombie();
      if z == PROC_NUM {
        Suspend(Ready, InWaitLoop);
        return Away, 0;
      }
      z := ProcFindzombie();
      ProcIs(z);
      Store(curr, pcb[curr].(childNum := pcb[curr].childNum - 1, kont := User));
      code := pcb[z].exitCode;
      r := Returned(pcb[z].pid);
      ProcFree(z);
    }

    method ProcFree(z: nat)
      requires Wellformed() && z < PROC_NUM
      modifies pcb
      ensures Wellformed() && Sems() == old(Sems())
      ensures Table() == if old(pcb[z].status) == Running then old(Table())
        else old(Table())[z := old(Table())[z].(status := Unused)]
    {
      hide Lists.ListPool.Valid, Lists.ListPool.Queues, TableOf, SemsOf;
      TableSet(pcb[..], lists.Queues(), z, pcb[z].(status := Unused));
      if pcb[z].status != Running {
        pcb[z] := pcb[z].(status := Unused);
      }
    }

    method SysWait() returns (r: Ret, code: int)
      requires Wellformed() && Inv(Abs()) && Enabled(Abs(), WaitCall)
      modifies this`curr, pcb, userSem, lists`lists, lists`home, lists.prev, lists.next, lists.item
      ensures Wellformed() && Abs() == Step(old(Abs()), WaitCall) && Inv(Abs())
      ensures WaitGives(old(Abs()), WaitCall, r, code)
    {
      hide Lists.ListPool.Valid, Lists.ListPool.Queues, TableOf, SemsOf, Inv, Leave, WaitEnd, SemAt, SetSem, POn,
        WaitGives, FindZombie, Shape, Core, Zombies, Grant;
      ghost var s := Abs();
      SlotsAre();
      IdleReady(s);
      StepInv(s, WaitCall);
      WaitParts(s);
      CurrFacts(s);
      if pcb[curr].childNum == 0 { return Returned(-1), 0; }
      EnoughNodes();
      var away := SemP(ZombieList(curr), InWait);
      if away { return Away, 0; }
      SlotsAre();
      r, code := WaitTail();
    }

    method SysSemP(id: int) returns (r: Ret)
      requires Wellformed() && Inv(Abs()) && Enabled(Abs(), SemPCall(id))
      modifies this`curr, pcb, userSem, lists`lists, lists`home, lists.prev, lists.next, lists.item
      ensures Wellformed() && Abs() == Step(old(Abs()), SemPCall(id)) && Inv(Abs())
      ensures r == if UsemOf(Curr(old(Abs())), id) == NULL then Returned(-1)
                   else if Switches(old(Abs()), SemPCall(id)) then Away else Returned(0)
    {
      hide Lists.ListPool.Valid, Lists.ListPool.Queues, TableOf, SemsOf, Inv, Leave, SemAt, SetSem, POn, Wellformed,
        Table, Sems, Shape, Core, Zombies, Grant;
      hide Fork, Exit, Wait, Resume, VSem, SemOpen, SemClose;
      ghost var s := Abs();
      ProcIs(curr);
      ProcIs(0);
      IdleReady(s);
      StepInv(s, SemPCall(id));
      CurrFacts(s);
      SlotFacts(s, id);
      var usem := ProcGetusem(id);
      if usem == NULL { return Returned(-1); }
      EnoughNodes();
      PIs(s, usem);
      var away := SemP(UserList(usem), InSem(usem));
      return if away then Away else Returned(0);
    }

    method SysSemV(id: int) returns (r: int)
      requires Wellformed() && Inv(Abs()) && Enabled(Abs(), SemVCall(id))
      modifies pcb, userSem, lists`lists, lists`home, lists.prev, lists.next
      ensures Wellformed() && Abs() == Step(old(Abs()), SemVCall(id)) && Inv(Abs())
      ensures r == if UsemOf(Curr(old(Abs())), id) == NULL then -1 else 0
    {
      hide Lists.ListPool.Valid, Lists.ListPool.Queues, TableOf, SemsOf, Inv, Leave, SemAt, SetSem, VOn, Wellformed,
        Table, Sems, Shape, Core, Zombies, Grant;
      hide Fork, Exit, Wait, Resume, PSem, SemOpen, SemClose;
      ghost var s := Abs();
      ProcIs(curr);
      StepInv(s, SemVCall(id));
      CurrFacts(s);
      SlotFacts(s, id);
      var usem := ProcGetusem(id);
      if usem == NULL { return -1; }
      VIs(s, usem);
      SemV(UserList(usem));
      return 0;
    }

    // proc_getusem
    method ProcGetusem(id: int) returns (u: int)
      requires Wellformed() && |pcb[curr].usems| == MAX_USEM
      ensures u == UsemOf(Curr(Abs()), id)
    {
      SlotsAre();
      return if id < 0 || id >= MAX_USEM then NULL else pcb[curr].usems[id];
    }

    method SysSemOpen(value: int) returns (r: int)
      requires Wellformed() && Inv(Abs()) && Enabled(Abs(), SemOpenCall(value))
      modifies pcb, userSem, lists.prev, lists.next
      ensures Wellformed() && Abs() == Step(old(Abs()), SemOpenCall(value)) && Inv(Abs())
      ensures var id := FreeSlot(Curr(old(Abs())).usems, 0);
        r == if id == MAX_USEM || FreeSem(old(Abs()).sems, 0) == SEM_NUM then -1 else id
    {
      hide Lists.ListPool.Valid, Lists.ListPool.Queues, TableOf, SemsOf, Inv, Wellformed, Table, Sems, Shape, Core,
        Zombies, Grant;
      hide Fork, Exit, Wait, Resume, PSem, VSem, SemClose, Leave;
      ghost var s := Abs();
      ProcIs(curr);
      StepInv(s, SemOpenCall(value));
      CurrFacts(s);
      var id := ProcAllocusem();
      if id == MAX_USEM { return -1; }
      var u := UsemAlloc(value);
      if u == SEM_NUM { return -1; }
      Store(curr, pcb[curr].(usems := pcb[curr].usems[id := u]));
      return id;
    }

    method ProcAllocusem() returns (id: nat)
      requires pcb.Length == PROC_NUM && curr < PROC_NUM && |pcb[curr].usems| == MAX_USEM
      ensures id == FreeSlot(pcb[curr].usems, 0)
    {
      for i := 0 to MAX_USEM
        invariant forall k | 0 <= k < i :: pcb[curr].usems[k] != NULL
      {
        if pcb[curr].usems[i] == NULL { return i; }
      }
      return MAX_USEM;
    }

    // usem_alloc; whatever semaphore it takes, nobody waits on.
    method UsemAlloc(value: int) returns (u: nat)
      requires Wellformed() && Inv(Abs())
      modifies userSem, lists.prev, lists.next
      ensures Wellformed() && Table() == old(Table()) && u == FreeSem(old(Sems()), 0)
      ensures u == SEM_NUM ==> Sems() == old(Sems())
      ensures u < SEM_NUM ==> Sems() == old(Sems())[u := USem(Sem(value, []), 1)]
    {
      hide Lists.ListPool.Valid, Lists.ListPool.Queues, TableOf, SemsOf, Inv, Shape, Core, Zombies, Grant;
      ghost var s, queues := Abs(), lists.Queues();
      for i := 0 to USER_SEM_NUM
        invariant Wellformed() && Abs() == s && lists.Queues() == queues
        invariant forall k | 0 <= k < i :: s.sems[k].ref != 0
      {
        SemsSet(userSem[..], queues, i, UserSem(value, 1));
        if userSem[i].ref == 0 {
          FreeSemNobody(s, i);
          QueueIs(UserList(i));
          lists.Init(UserList(i));
          userSem[i] := UserSem(value, 1);
          return i;
        }
      }
      SerialTaken(s);
      FreeSemIs(s.sems);
      return SEM_NUM;
    }

    // The P of getchar.
    method Getchar() returns (r: Ret)
      requires Wellformed() && Inv(Abs()) && Enabled(Abs(), GetcharCall)
      modifies this`curr, pcb, userSem, lists`lists, lists`home, lists.prev, lists.next, lists.item
      ensures Wellformed() && Abs() == Step(old(Abs()), GetcharCall) && Inv(Abs())
      ensures r == if Switches(old(Abs()), GetcharCall) then Away else Returned(0)
    {
      hide Lists.ListPool.Valid, Lists.ListPool.Queues, TableOf, SemsOf, Inv, Leave, SemAt, SetSem, POn, Wellformed,
        Table, Sems, Shape, Core, Zombies, Grant;
      hide Fork, Exit, Wait, Resume, VSem, SemOpen, SemClose;
      ghost var s := Abs();
      ProcIs(curr);
      ProcIs(0);
      IdleReady(s);
      StepInv(s, GetcharCall);
      CurrFacts(s);
      EnoughNodes();
      PIs(s, SERIAL);
      var away := SemP(UserList(SERIAL), InSem(SERIAL));
      return if away then Away else Returned(0);
    }

    // One V of the serial interrupt.
    method Key()
      requires Wellformed() && Inv(Abs()) && Enabled(Abs(), KeyCall)
      modifies pcb, userSem, lists`lists, lists`home, lists.prev, lists.next
      ensures Wellformed() && Abs() == Step(old(Abs()), KeyCall) && Inv(Abs())
    {
      hide Lists.ListPool.Valid, Lists.ListPool.Queues, TableOf, SemsOf, Inv, Leave, SemAt, SetSem, VOn, Wellformed,
        Table, Sems, Shape, Core, Zombies, Grant;
      hide Fork, Exit, Wait, Resume, PSem, SemOpen, SemClose;
      ghost var s := Abs();
      StepInv(s, KeyCall);
      CurrFacts(s);
      VIs(s, SERIAL);
      SemV(UserList(SERIAL));
    }

    method SysSemClose(id: int) returns (r: int)
      requires Wellformed() && Inv(Abs()) && Enabled(Abs(), SemCloseCall(id))
      modifies pcb, userSem
      ensures Wellformed() && Abs() == Step(old(Abs()), SemCloseCall(id)) && Inv(Abs())
      ensures r == if UsemOf(Curr(old(Abs())), id) == NULL then -1 else 0
    {
      hide Lists.ListPool.Valid, Lists.ListPool.Queues, TableOf, SemsOf, Inv, Wellformed, Table, Sems, Shape, Core,
        Zombies, Grant;
      hide Fork, Exit, Wait, Resume, PSem, VSem, SemOpen, Leave;
      ghost var s := Abs();
      ProcIs(curr);
      StepInv(s, SemCloseCall(id));
      CurrFacts(s);
      SlotFacts(s, id);
      var usem := ProcGetusem(id);
      if usem == NULL { return -1; }
      CloseSlot(id);
      return 0;
    }

    // Back on the processor inside the kernel: sys_wait or sys_sem_p goes on behind its schedule.
    method Continue() returns (r: Ret, code: int)
      requires Wellformed() && Inv(Abs()) && Enabled(Abs(), ResumeCall)
      modifies this`curr, pcb
      ensures Wellformed() && Abs() == Step(old(Abs()), ResumeCall) && Inv(Abs())
      ensures Curr(old(Abs())).kont.InSem? ==> r == Returned(0)
      ensures !Curr(old(Abs())).kont.InSem? ==> WaitGives(old(Abs()), ResumeCall, r, code)
    {
      hide Lists.ListPool.Valid, Lists.ListPool.Queues, TableOf, SemsOf, Inv, WaitEnd, WaitGives, FindZombie,
        Wellformed, Table, Sems, Shape, Core, Zombies, Grant;
      hide Fork, Exit, Wait, PSem, VSem, SemOpen, SemClose, Leave;
      ghost var s := Abs();
      ProcIs(curr);
      ProcIs(0);
      IdleReady(s);
      StepInv(s, ResumeCall);
      CurrFacts(s);
      if pcb[curr].kont.InSem? {
        Store(curr, pcb[curr].(kont := User));
        return Returned(0), 0;
      }
      ResumeParts(s);
      r, code := WaitTail();
    }

    // The assertion in list_enqueue holds: at most 64 of the 256 nodes are in use.
    lemma EnoughNodes()
      requires Wellformed() && Inv(Abs())
      ensures lists.Queue(FREE) != []
    {
      hide Lists.ListPool.Valid, Lists.ListPool.Queues, TableOf, SemsOf, Inv, AllDifferent, Shape, Core, Zombies, Grant;
      QueuesDiffer(Abs(), pcb[..], userSem[..], lists.Queues());
      lists.HasFree(PROC_NUM);
    }
  }

  // usem_close
  function Undupped(sems: seq<USem>, u: int): seq<USem> {
    if 0 <= u < |sems| then sems[u := sems[u].(ref := sems[u].ref - 1)] else sems
  }

  lemma SlotCleared(slots: seq<int>, rest: seq<int>, i: nat)
    requires i < |slots| && rest == NoSlots(|slots|)[..i] + slots[i..]
    ensures rest[i := NULL] == NoSlots(|slots|)[..i + 1] + slots[i + 1..]
    ensures rest[i] == slots[i]
  {}

  lemma DropNoRefs(sems: seq<USem>, slots: seq<int>)
    ensures DropRefs(sems, slots[..0]) == sems
  {}

  lemma DropOneRef(sems: seq<USem>, slots: seq<int>, i: nat)
    requires i < |slots|
    ensures DropRefs(sems, slots[..i + 1]) == Undupped(DropRefs(sems, slots[..i]), slots[i])
  {
    assert slots[..i + 1] == slots[..i] + [slots[i]];
  }

  lemma OrphanTable(was: seq<Pcb>, pcb: seq<Pcb>, queues: seq<seq<int>>, c: int)
    requires |was| == |pcb| == PROC_NUM && |queues| == LISTS
    requires forall k | 0 <= k < PROC_NUM :: pcb[k] == if was[k].parent == c then was[k].(parent := NULL) else was[k]
    ensures TableOf(pcb, queues) == Orphan(TableOf(was, queues), c)
  {}

  // The state of sys_exit before the files are closed.
  function Dying(s: State, code: int): State
    requires s.curr < |s.pcb|
  {
    var c := s.curr;
    var pcb1 := Orphan(s.pcb[c := Curr(s).(status := Zombie, exitCode := code)], c);
    var pcb2 := SignalParent(pcb1, pcb1[c].parent);
    if c < |pcb2| then
      State(pcb2[c := pcb2[c].(usems := NoSlots(MAX_USEM))], c, s.nextPid, DropRefs(s.sems, Curr(s).usems))
    else s
  }

  lemma OrphanFacts(s: State, t0: seq<Proc>, code: int)
    requires s.curr < |s.pcb| && t0 == s.pcb[s.curr := Curr(s).(status := Zombie, exitCode := code)]
    ensures var t1 := Orphan(t0, s.curr);
      forall i: nat | i < |s.pcb| ::
        t1[i].zsem == s.pcb[i].zsem && t1[i].usems == s.pcb[i].usems && t1[i].files == s.pcb[i].files
          && t1[i].cwd == s.pcb[i].cwd
    ensures Curr(s).parent != s.curr ==> Orphan(t0, s.curr)[s.curr].parent == Curr(s).parent
  {}

  lemma SignalIsV(s: State, q: int)
    requires |s.pcb| == PROC_NUM && |s.sems| == SEM_NUM && 0 <= q < PROC_NUM
    ensures VOn(s, ZombieList(q)) == s.(pcb := SignalParent(s.pcb, q)) && SemAt(s, ZombieList(q)) == s.pcb[q].zsem
  {}

  lemma SignalNobody(pcb: seq<Proc>)
    ensures SignalParent(pcb, NULL) == pcb
  {}

  lemma SignalFacts(s: State, t1: seq<Proc>, t2: seq<Proc>, code: int)
    requires s.curr < |s.pcb| && s.curr < |t1| && t2 == SignalParent(t1, t1[s.curr].parent)
    ensures |t2| == |t1| && t2[s.curr].usems == t1[s.curr].usems && t2[s.curr].files == t1[s.curr].files
      && t2[s.curr].cwd == t1[s.curr].cwd
  {}

  // What a system call gives back, unless the process leaves the processor inside it.
  datatype Ret = Returned(value: int) | Away

  // sys_wait returns the pid and the exit code of the child it reaps, -1 without children; it leaves
  // the processor only at its sem_p, never in its loop.
  ghost predicate WaitGives(s: State, e: Event, r: Ret, code: int)
    requires Enabled(s, e)
  {
    var z := ReapedBy(s, e);
    if e.WaitCall? && Curr(s).childNum == 0 then r == Returned(-1)
    else if Switches(s, e) then r == Away
    else
      z < |s.pcb| && s.pcb[z].status == Zombie && s.pcb[z].parent == s.curr && r == Returned(s.pcb[z].pid)
      && code == s.pcb[z].exitCode
  }

  lemma IdleReady(s: State)
    requires Inv(s) && s.curr != 0
    ensures |s.pcb| == PROC_NUM && s.pcb[0].status == Ready
  {
    hide Core;
  }

  // If no user semaphore is free, none is.
  lemma FreeSemIs(sems: seq<USem>)
    requires |sems| == SEM_NUM && FreeSem(sems, 0) != SERIAL && forall k | 0 <= k < USER_SEM_NUM :: sems[k].ref != 0
    ensures FreeSem(sems, 0) == SEM_NUM
  {}

  lemma FreeSemNobody(s: State, u: nat)
    requires Inv(s) && u < |s.sems| && s.sems[u].ref == 0
    ensures s.sems[u].sem.queue == []
  {
    hide Shape, Parents, ChildCounts, ZombieCounts, WaitQueues, Konts, SemQueues, SemRefs;
    FreeSemQueue(s.pcb, s.sems, u);
  }

  lemma PIs(s: State, u: nat)
    requires s.curr < |s.pcb| && |s.pcb| == PROC_NUM && |s.sems| == SEM_NUM && u < SEM_NUM
    ensures PSem(s, u) == POn(s, UserList(u), InSem(u)) && SemAt(s, UserList(u)) == s.sems[u].sem
  {
    hide Leave;
  }

  lemma VIs(s: State, u: nat)
    requires Inv(s) && s.curr < |s.pcb| && u < SEM_NUM
    ensures |s.pcb| == PROC_NUM && |s.sems| == SEM_NUM
    ensures VSem(s, u) == VOn(s, UserList(u)) && forall p | p in SemAt(s, UserList(u)).queue :: 0 <= p < PROC_NUM
  {
    hide Shape, Parents, ChildCounts, ZombieCounts, WaitQueues, Konts, SemRefs;
    CurrFacts(s);
  }

  // sys_wait is its sem_p and, unless that blocks, the rest; which then finds a zombie.
  lemma WaitParts(s: State)
    requires Inv(s) && s.curr != 0 && Curr(s).kont == User && Enabled(s, WaitCall)
    ensures |s.pcb| == PROC_NUM && |s.sems| == SEM_NUM
    ensures SemAt(s, ZombieList(s.curr)) == Curr(s).zsem
    ensures Curr(s).childNum != 0 ==>
      var t := POn(s, ZombieList(s.curr), InWait);
      if Curr(s).zsem.value == 0 then Wait(s) == t
      else
        t.curr == s.curr && t.pcb[0].status == s.pcb[0].status && t.pcb[s.curr].status == Running
        && Wait(s) == WaitEnd(t)
    ensures Curr(s).childNum != 0 && Curr(s).zsem.value != 0 ==>
      var t, z := POn(s, ZombieList(s.curr), InWait), FindZombie(s.pcb, s.curr, 0);
      z < PROC_NUM && z == FindZombie(t.pcb, s.curr, 0) && t.pcb[z].pid == s.pcb[z].pid
        && t.pcb[z].exitCode == s.pcb[z].exitCode
    ensures forall r, code :: WaitGives(s, WaitCall, r, code) <==>
      if Curr(s).childNum == 0 then r == Returned(-1)
      else if Curr(s).zsem.value == 0 then r == Away
      else var z := FindZombie(s.pcb, s.curr, 0); r == Returned(s.pcb[z].pid) && code == s.pcb[z].exitCode
  {
    hide Inv, Shape, Core, Leave, Zombies, Reaped, WaitEnd;
    CurrFacts(s);
    if Curr(s).childNum != 0 && Curr(s).zsem.value != 0 {
      var s1 := s.(pcb := s.pcb[s.curr := Curr(s).(zsem := Curr(s).zsem.(value := Curr(s).zsem.value - 1))]);
      WaitEndReaps(s, s1);
    }
  }

  lemma ResumeParts(s: State)
    requires Inv(s) && s.curr != 0 && Enabled(s, ResumeCall) && !Curr(s).kont.InSem?
    ensures Resume(s) == WaitEnd(s) && |s.pcb| == PROC_NUM && FindZombie(s.pcb, s.curr, 0) < PROC_NUM
    ensures var z := FindZombie(s.pcb, s.curr, 0);
      forall r, code :: WaitGives(s, ResumeCall, r, code) <==> r == Returned(s.pcb[z].pid) && code == s.pcb[z].exitCode
  {
    hide Inv, Shape, Core, Zombies, Reaped, WaitEnd;
    CurrFacts(s);
    var c := Curr(s);
    assert s.pcb[s.curr := c.(zsem := Sem(c.zsem.value + Grant(c) - 1, []))] == s.pcb;
    WaitEndReaps(s, s);
  }

  // Every process is queued at most once: on its own zombie list, or on the one semaphore it is blocked on.
  lemma QueuesDiffer(s: State, pcb: seq<Pcb>, sems: seq<UserSem>, queues: seq<seq<int>>)
    requires Inv(s) && |pcb| == PROC_NUM && |sems| == SEM_NUM && |queues| == LISTS
    requires s.pcb == TableOf(pcb, queues) && s.sems == SemsOf(sems, queues)
    ensures AllDifferent(queues, PROC_NUM)
  {
    hide Shape, Parents, ChildCounts, ZombieCounts, SemRefs, AllDifferent;
    forall g: nat, i: nat | 1 <= g < LISTS && i < |queues[g]|
      ensures 0 <= queues[g][i] < PROC_NUM
      ensures g <= PROC_NUM ==> queues[g] == [g - 1] && s.pcb[g - 1].kont == InWait
      ensures g > PROC_NUM ==> s.pcb[queues[g][i]].kont == InSem(g - 1 - PROC_NUM)
    {
      if g <= PROC_NUM { assert s.pcb[g - 1].zsem.queue == queues[g]; }
      else { assert s.sems[g - 1 - PROC_NUM].sem.queue == queues[g]; }
    }
    forall g: nat, i: nat, h: nat, j: nat | 1 <= g < LISTS && i < |queues[g]| && 1 <= h < LISTS && j < |queues[h]|
        && queues[g][i] == queues[h][j]
      ensures g == h && i == j
    {
      if g > PROC_NUM && h > PROC_NUM { assert s.sems[g - 1 - PROC_NUM].sem.queue == queues[g]; }
    }
    DifferentIs(queues);
  }

  lemma DifferentIs(queues: seq<seq<int>>)
    requires forall g: nat, i: nat | 1 <= g < |queues| && i < |queues[g]| :: 0 <= queues[g][i] < PROC_NUM
    requires forall g: nat, i: nat, h: nat, j: nat | 1 <= g < |queues| && i < |queues[g]| && 1 <= h < |queues|
      && j < |queues[h]| ::
      queues[g][i] == queues[h][j] ==> g == h && i == j
    ensures AllDifferent(queues, PROC_NUM)
  {}

  // usem_dup
  function Dupped(sems: seq<USem>, u: int): seq<USem> {
    if 0 <= u < |sems| then sems[u := sems[u].(ref := sems[u].ref + 1)] else sems
  }

  lemma SlotCopied(slots: seq<int>, copy: seq<int>, i: nat)
    requires i < |slots| && copy == slots[..i] + NoSlots(|slots|)[i..]
    ensures (if slots[i] == NULL then copy else copy[i := slots[i]]) == slots[..i + 1] + NoSlots(|slots|)[i + 1..]
  {}

  lemma AddNoRefs(sems: seq<USem>, slots: seq<int>)
    ensures AddRefs(sems, slots[..0]) == sems
  {}

  lemma AddOneRef(sems: seq<USem>, slots: seq<int>, i: nat)
    requires i < |slots|
    ensures AddRefs(sems, slots[..i + 1]) == Dupped(AddRefs(sems, slots[..i]), slots[i])
  {
    assert slots[..i + 1] == slots[..i] + [slots[i]];
  }

  // The child in entry a has the semaphores of the running process, and the running process one more child.
  function Copied(s: State, a: nat): State
    requires s.curr < |s.pcb| && a < |s.pcb|
  {
    var c := Curr(s);
    s.(pcb := s.pcb[s.curr := c.(childNum := c.childNum + 1)][a := s.pcb[a].(parent := s.curr, usems := c.usems)],
      sems := AddRefs(s.sems, c.usems))
  }

  // Nobody waits on the zombie semaphore of an unused entry.
  lemma UnusedQueue(s: State, i: nat)
    requires Inv(s) && i < |s.pcb| && s.pcb[i].status == Unused
    ensures s.pcb[i].zsem.queue == []
  {
    hide Parents, ChildCounts, ZombieCounts, Konts, SemQueues, SemRefs;
  }
}

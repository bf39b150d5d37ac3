// sys_exit keeps the invariant: children are orphaned, the parent is told, references are dropped.
module ProcExit {
  import opened Bags
  import opened Procs
  import opened ProcInvariant
  import opened ProcSteps

  function Bereft(p: Proc, c: int): Proc {
    if p.parent == c then p.(parent := NULL) else p
  }

  function Signalled(p: Proc): Proc {
    if p.zsem.queue == [] then p.(zsem := p.zsem.(value := p.zsem.value + 1))
    else p.(zsem := p.zsem.(queue := p.zsem.queue[1..]), status := Ready)
  }

  // The table after proc_makezombie on c, whose parent is q.
  ghost predicate Exited(pcb: seq<Proc>, pcb': seq<Proc>, c: nat, q: int) {
    && |pcb'| == |pcb| && c < |pcb| && pcb[c].status == Running && pcb[c].parent == q && q != c
    && pcb[c].kont == User
    && pcb'[c] == pcb[c].(status := Zombie, exitCode := pcb'[c].exitCode, usems := NoSlots(MAX_USEM),
                          files := pcb'[c].files, cwd := NULL)
    && forall i: nat | i < |pcb| && i != c ::
      pcb'[i] == if i == q then Signalled(Bereft(pcb[i], c)) else Bereft(pcb[i], c)
  }

  // The table just before the final schedule of sys_exit.
  function ExitTable(s: State, code: int): seq<Proc>
    requires s.curr < |s.pcb|
  {
    var c := s.curr;
    var pcb1 := Orphan(s.pcb[c := Curr(s).(status := Zombie, exitCode := code)], c);
    var pcb2 := SignalParent(pcb1, pcb1[c].parent);
    if c < |pcb2| then pcb2[c := pcb2[c].(usems := NoSlots(MAX_USEM), files := NoSlots(MAX_UFILE), cwd := NULL)]
      else s.pcb
  }

  lemma ExitIs(s: State, code: int)
    requires s.curr < |s.pcb|
    ensures Exit(s, code) == Schedule(State(ExitTable(s, code), s.curr, s.nextPid, DropRefs(s.sems, Curr(s).usems)))
  {}

  // Only the parent itself can be waiting on its zombie semaphore.
  lemma ParentFacts(s: State)
    requires Inv(s)
    ensures var c, q := s.curr, Curr(s).parent;
      q != NULL ==> 0 <= q < |s.pcb| && q != c && (s.pcb[q].zsem.queue == [] || s.pcb[q].zsem.queue == [q])
  {
    hide ChildCounts, ZombieCounts, Konts, SemQueues, SemRefs;
  }

  lemma SignalIs(pcb: seq<Proc>, q: int)
    requires q != NULL ==> 0 <= q < |pcb| && (pcb[q].zsem.queue == [] || pcb[q].zsem.queue == [q])
    ensures var pcb' := SignalParent(pcb, q);
      |pcb'| == |pcb| && forall i: nat | i < |pcb| :: pcb'[i] == if i == q then Signalled(pcb[i]) else pcb[i]
  {
    if q != NULL {
      var m := pcb[q].zsem;
      var mid := pcb[q := pcb[q].(zsem := Up(m))];
      assert m.queue == [q] ==> m.queue[1..] == [];
    }
  }

  // So the one that proc_makezombie wakes is the parent.
  lemma ExitTableIs(s: State, code: int)
    requires Inv(s) && Curr(s).kont == User
    ensures |ExitTable(s, code)| == |s.pcb| && Exited(s.pcb, ExitTable(s, code), s.curr, Curr(s).parent)
    ensures ExitTable(s, code)[s.curr].exitCode == code
    ensures ExitTable(s, code)[s.curr].files == NoSlots(MAX_UFILE)
  {
    hide Inv, Core, Shape, Zombies;
    CurrFacts(s);
    ParentFacts(s);
    var c, q := s.curr, Curr(s).parent;
    var pcb0 := s.pcb[c := Curr(s).(status := Zombie, exitCode := code)];
    var pcb1 := Orphan(pcb0, c);
    forall i: nat | i < |s.pcb| ensures pcb1[i] == Bereft(pcb0[i], c) {}
    assert pcb1[c].parent == q;
    hide Orphan;
    SignalIs(pcb1, q);
  }

  lemma ExitParents(pcb: seq<Proc>, pcb': seq<Proc>, c: nat, q: int)
    requires Parents(pcb) && Exited(pcb, pcb', c, q)
    ensures Parents(pcb')
  {
    forall i: nat | i < |pcb'| && pcb'[i].status != Unused && pcb'[i].parent != NULL
      ensures 0 <= pcb'[i].parent < |pcb'| && pcb'[i].parent != i && Alive(pcb'[pcb'[i].parent])
    {
      assert pcb'[i].parent == pcb[i].parent != c;
      assert Alive(pcb[pcb[i].parent]);
    }
  }

  // Children and zombies of every process but c, counted through the table with only c changed.
  lemma ExitBags(pcb: seq<Proc>, pcb': seq<Proc>, c: nat, q: int, p: nat)
    requires Exited(pcb, pcb', c, q) && p != c && WaitQueues(pcb)
    ensures Children(pcb')[p] == Children(pcb)[p]
    ensures Zombies(pcb')[p] == Zombies(pcb)[p] + (if p == q then 1 else 0)
  {
    hide Bag, Exited, WaitQueues, ParentKey, ZombieKey;
    ExitLengths(pcb, pcb', c, q);
    var mid := pcb[c := pcb'[c]];
    BagAt(pcb, ParentKey, c, pcb'[c], p);
    BagAt(pcb, ZombieKey, c, pcb'[c], p);
    forall i: nat | i < |pcb|
      ensures ParentKey(mid[i])[p] == ParentKey(pcb'[i])[p] && ZombieKey(mid[i])[p] == ZombieKey(pcb'[i])[p]
    {
      if i != c { ExitKeys(pcb, pcb', c, q, p, i); }
    }
    BagSame(mid, pcb', ParentKey, p);
    BagSame(mid, pcb', ZombieKey, p);
    ExitKey(pcb, pcb', c, q, p);
  }

  lemma ExitLengths(pcb: seq<Proc>, pcb': seq<Proc>, c: nat, q: int)
    requires Exited(pcb, pcb', c, q)
    ensures |pcb'| == |pcb| && c < |pcb|
  {}

  lemma ExitKeys(pcb: seq<Proc>, pcb': seq<Proc>, c: nat, q: int, p: nat, i: nat)
    requires Exited(pcb, pcb', c, q) && p != c && WaitQueues(pcb) && i < |pcb| && i != c
    ensures |pcb'| == |pcb| && ParentKey(pcb[i])[p] == ParentKey(pcb'[i])[p]
      && ZombieKey(pcb[i])[p] == ZombieKey(pcb'[i])[p]
  {
    assert pcb'[i] == if i == q then Signalled(Bereft(pcb[i], c)) else Bereft(pcb[i], c);
  }

  lemma ExitKey(pcb: seq<Proc>, pcb': seq<Proc>, c: nat, q: int, p: nat)
    requires Exited(pcb, pcb', c, q) && p != c
    ensures c < |pcb| == |pcb'| && ParentKey(pcb'[c])[p] == ParentKey(pcb[c])[p]
    ensures ZombieKey(pcb'[c])[p] == ZombieKey(pcb[c])[p] + (if p == q then 1 else 0)
  {}

  lemma ExitCounts(pcb: seq<Proc>, pcb': seq<Proc>, c: nat, q: int)
    requires ChildCounts(pcb) && ZombieCounts(pcb) && WaitQueues(pcb) && Konts(pcb) && Exited(pcb, pcb', c, q)
    ensures ChildCounts(pcb') && ZombieCounts(pcb')
  {
    forall p: nat | p < |pcb'| && Alive(pcb'[p])
      ensures pcb'[p].childNum == Children(pcb')[p]
      ensures pcb'[p].zsem.value >= 0 && Zombies(pcb')[p] == pcb'[p].zsem.value + Grant(pcb'[p])
    {
      ExitBags(pcb, pcb', c, q, p);
      hide Children, Zombies;
      assert pcb'[p] == if p == q then Signalled(Bereft(pcb[p], c)) else Bereft(pcb[p], c);
      assert Alive(pcb[p]);
    }
  }

  lemma ExitWaits(pcb: seq<Proc>, pcb': seq<Proc>, c: nat, q: int)
    requires WaitQueues(pcb) && Konts(pcb) && Exited(pcb, pcb', c, q)
    ensures WaitQueues(pcb') && Konts(pcb')
  {
    forall i: nat | i < |pcb'|
      ensures if pcb'[i].status == Blocked
        && pcb'[i].kont == InWait then pcb'[i].zsem == Sem(0, [i]) else pcb'[i].zsem.queue == []
      ensures pcb'[i].kont != InWaitLoop && (pcb'[i].status == Blocked ==> pcb'[i].kont != User)
        && (pcb'[i].kont != User ==> Alive(pcb'[i]))
    {
      if i != c { assert pcb'[i] == if i == q then Signalled(Bereft(pcb[i], c)) else Bereft(pcb[i], c); }
    }
  }

  // A process blocked on a user semaphore does not notice.
  lemma ExitBlocked(pcb: seq<Proc>, pcb': seq<Proc>, c: nat, q: int, i: nat)
    requires WaitQueues(pcb) && Konts(pcb) && Exited(pcb, pcb', c, q) && i < |pcb|
    ensures pcb'[i].kont == pcb[i].kont && (i != c ==> pcb'[i].usems == pcb[i].usems)
    ensures pcb[i].kont.InSem? ==> (pcb'[i].status == Blocked <==> pcb[i].status == Blocked)
    ensures Alive(pcb'[i]) <==> i != c && Alive(pcb[i])
  {
    if i != c { assert pcb'[i] == if i == q then Signalled(Bereft(pcb[i], c)) else Bereft(pcb[i], c); }
  }

  lemma ExitQueues(pcb: seq<Proc>, pcb': seq<Proc>, sems: seq<USem>, c: nat, q: int)
    requires WaitQueues(pcb) && Konts(pcb) && SemQueues(pcb, sems) && Exited(pcb, pcb', c, q)
    ensures SemQueues(pcb', DropRefs(sems, pcb[c].usems))
  {
    var sems' := DropRefs(sems, pcb[c].usems);
    assert forall u: nat | u < |sems| :: sems'[u].sem == sems[u].sem;
    forall i: nat | i < |pcb|
      ensures pcb'[i].kont == pcb[i].kont
        && (pcb[i].kont.InSem? ==> (pcb'[i].status == Blocked <==> pcb[i].status == Blocked))
    {
      ExitBlocked(pcb, pcb', c, q, i);
    }
    hide DropRefs, Exited, WaitQueues, Konts;
    assert SemQueues(pcb', sems');
  }

  lemma ExitRefs(pcb: seq<Proc>, pcb': seq<Proc>, sems: seq<USem>, c: nat, q: int)
    requires WaitQueues(pcb) && Konts(pcb) && SemRefs(pcb, sems) && Exited(pcb, pcb', c, q)
    ensures SemRefs(pcb', DropRefs(sems, pcb[c].usems))
  {
    hide Bag;
    var sems' := DropRefs(sems, pcb[c].usems);
    var mid := pcb[c := pcb'[c]];
    forall i: nat | i < |pcb|
      ensures pcb'[i].kont == pcb[i].kont && (i != c ==> pcb'[i].usems == pcb[i].usems)
      ensures pcb[i].kont.InSem? ==> (pcb'[i].status == Blocked <==> pcb[i].status == Blocked)
      ensures Alive(pcb'[i]) <==> i != c && Alive(pcb[i])
    {
      ExitBlocked(pcb, pcb', c, q, i);
    }
    forall u: nat | u < |sems| ensures sems'[u].ref == UsemSlots(pcb')[u] + KernelRef(u) {
      BagAt(pcb, UsemKey, c, pcb'[c], u);
      NoSlotsEmpty(MAX_USEM, u);
      assert UsemKey(pcb'[c]) == multiset(NoSlots(MAX_USEM));
      BagSame(mid, pcb', UsemKey, u);
      assert UsemKey(pcb[c]) == multiset(pcb[c].usems);
    }
    hide UsemSlots, WaitQueues, UsemKey, Alive;
    assert SemRefs(pcb', sems');
  }

  lemma ExitInv(s: State, code: int)
    requires Inv(s) && s.curr != 0 && Curr(s).kont == User
    ensures Inv(Exit(s, code))
  {
    hide Inv, Core, Shape, Parents, ChildCounts, ZombieCounts, WaitQueues, Konts, SemQueues, SemRefs, Zombies, Exit,
      ExitTable, Exited, DropRefs, Schedule;
    CurrFacts(s);
    CoreWhole(s.pcb, s.sems);
    ExitIs(s, code);
    ExitTableIs(s, code);
    var pcb', c, q := ExitTable(s, code), s.curr, Curr(s).parent;
    ExitParents(s.pcb, pcb', c, q);
    ExitCounts(s.pcb, pcb', c, q);
    ExitWaits(s.pcb, pcb', c, q);
    ExitQueues(s.pcb, pcb', s.sems, c, q);
    ExitRefs(s.pcb, pcb', s.sems, c, q);
    CoreParts(pcb', DropRefs(s.sems, Curr(s).usems));
    ExitIdle(s, pcb', c, q);
    ScheduleInv(State(pcb', c, s.nextPid, DropRefs(s.sems, Curr(s).usems)));
  }

  lemma ExitIdle(s: State, pcb': seq<Proc>, c: nat, q: int)
    requires Shape(s) && WaitQueues(s.pcb) && s.curr != 0 && c == s.curr && Exited(s.pcb, pcb', c, q)
    ensures pcb'[0].status == Ready && pcb'[0].kont == User && s.nextPid >= 2
    ensures forall i: nat | i < PROC_NUM :: pcb'[i].status != Running
  {
    assert s.pcb[0].zsem.queue == [];
    forall i: nat | i < PROC_NUM ensures pcb'[i].status != Running {
      if i != c { assert pcb'[i] == if i == q then Signalled(Bereft(s.pcb[i], c)) else Bereft(s.pcb[i], c); }
    }
  }
}

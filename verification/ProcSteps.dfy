// Each kernel entry keeps the process and semaphore invariant.
module ProcSteps {
  import opened Bags
  import opened Procs
  import opened ProcInvariant

  // ---- one entry of the table changes, and nothing anybody counts by ----

  ghost predicate Quiet(p: Proc, p': Proc) {
    && ParentKey(p') == ParentKey(p) && ZombieKey(p') == ZombieKey(p) && Alive(p') == Alive(p)
    && p'.childNum == p.childNum && p'.zsem.value == p.zsem.value && Grant(p') == Grant(p)
    && (p'.status != Unused ==> p.status != Unused && p'.parent == p.parent)
  }

  lemma QuietCounts(pcb: seq<Proc>, c: nat, c': Proc)
    requires c < |pcb| && Quiet(pcb[c], c') && Parents(pcb) && ChildCounts(pcb) && ZombieCounts(pcb)
    ensures var pcb' := pcb[c := c']; Parents(pcb') && ChildCounts(pcb') && ZombieCounts(pcb')
  {
    hide Bag, ParentKey, ZombieKey, Alive, Grant, ChildCounts, ZombieCounts;
    QuietBags(pcb, c, c');
    hide Children, Zombies;
    QuietParents(pcb, c, c');
    hide Parents;
    QuietChildren(pcb, c, c');
  }

  lemma QuietBags(pcb: seq<Proc>, c: nat, c': Proc)
    requires c < |pcb| && Quiet(pcb[c], c')
    ensures Children(pcb[c := c']) == Children(pcb) && Zombies(pcb[c := c']) == Zombies(pcb)
  {
    hide Bag, ParentKey, ZombieKey, Alive, Grant;
    BagKeep(pcb, ParentKey, c, c');
    BagKeep(pcb, ZombieKey, c, c');
  }

  lemma QuietParents(pcb: seq<Proc>, c: nat, c': Proc)
    requires c < |pcb| && Quiet(pcb[c], c') && Parents(pcb)
    ensures Parents(pcb[c := c'])
  {
    hide Alive;
  }

  lemma QuietChildren(pcb: seq<Proc>, c: nat, c': Proc)
    requires c < |pcb| && Quiet(pcb[c], c') && ChildCounts(pcb) && ZombieCounts(pcb)
    requires Children(pcb[c := c']) == Children(pcb) && Zombies(pcb[c := c']) == Zombies(pcb)
    ensures ChildCounts(pcb[c := c']) && ZombieCounts(pcb[c := c'])
  {
    hide Alive, Children, Zombies, Grant;
  }

  lemma SlotsKept(pcb: seq<Proc>, c: nat, c': Proc)
    requires c < |pcb| && c'.usems == pcb[c].usems
    ensures UsemSlots(pcb[c := c']) == UsemSlots(pcb)
  {
    BagKeep(pcb, UsemKey, c, c');
  }

  // What the invariant says about the process on the processor.
  lemma CurrFacts(s: State)
    requires Inv(s)
    ensures s.curr < |s.pcb| && Curr(s).status == Running && Curr(s).zsem.queue == [] && Curr(s).zsem.value >= 0
    ensures Curr(s).kont != InWaitLoop
    ensures Zombies(s.pcb)[s.curr] == Curr(s).zsem.value + Grant(Curr(s))
    ensures |Curr(s).usems| == MAX_USEM && |s.sems| == SEM_NUM && |s.pcb| == PROC_NUM
    ensures forall k | 0 <= k < MAX_USEM :: SlotOk(Curr(s).usems[k], |s.sems|)
    ensures Shape(s) && Core(s.pcb, s.sems)
  {
    hide ChildCounts, Parents, SemQueues, Zombies, Grant;
  }

  lemma CoreWhole(pcb: seq<Proc>, sems: seq<USem>)
    requires Core(pcb, sems)
    ensures Parents(pcb) && ChildCounts(pcb) && ZombieCounts(pcb) && WaitQueues(pcb) && Konts(pcb)
    ensures SemQueues(pcb, sems) && SemRefs(pcb, sems)
  {
    hide Parents, ChildCounts, ZombieCounts, WaitQueues, Konts, SemQueues, SemRefs;
  }

  // ---- sys_wait ----

  lemma WaitBlockInv(s: State)
    requires Inv(s) && s.curr != 0 && Curr(s).kont == User && Curr(s).zsem.value == 0
    ensures var c := Curr(s);
      Inv(Leave(s.(pcb := s.pcb[s.curr := c.(zsem := c.zsem.(queue := c.zsem.queue + [s.curr]))]), Blocked, InWait))
  {
    hide Inv, Core, Shape, Parents, ChildCounts, ZombieCounts, WaitQueues, Konts, SemQueues, SemRefs, UsemSlots,
      Zombies, Schedule;
    CurrFacts(s);
    CoreWhole(s.pcb, s.sems);
    var c, pcb := s.curr, s.pcb;
    var c' := pcb[c].(zsem := Sem(0, [c]), status := Blocked, kont := InWait);
    assert Quiet(pcb[c], c');
    assert pcb[c].zsem.queue + [c] == [c];
    assert pcb[c := pcb[c].(zsem := Sem(0, [c]))][c := c'] == pcb[c := c'];
    hide Quiet;
    QuietCounts(pcb, c, c');
    SlotsKept(pcb, c, c');
    WaitBlockQueues(pcb, s.sems, c, c');
    CoreParts(pcb[c := c'], s.sems);
    LeaveInv(s, c');
  }

  // The current process leaves the processor with entry c', the rest unchanged.
  lemma LeaveInv(s: State, c': Proc)
    requires Shape(s) && s.curr != 0 && c'.status != Running && Core(s.pcb[s.curr := c'], s.sems)
    ensures Inv(Schedule(s.(pcb := s.pcb[s.curr := c'])))
  {
    hide Core, Schedule;
    ScheduleInv(s.(pcb := s.pcb[s.curr := c']));
  }

  lemma CoreParts(pcb: seq<Proc>, sems: seq<USem>)
    requires Parents(pcb) && ChildCounts(pcb) && ZombieCounts(pcb) && WaitQueues(pcb) && Konts(pcb)
    requires SemQueues(pcb, sems) && SemRefs(pcb, sems)
    ensures Core(pcb, sems)
  {}

  lemma WaitBlockQueues(pcb: seq<Proc>, sems: seq<USem>, c: nat, c': Proc)
    requires WaitQueues(pcb) && Konts(pcb) && SemQueues(pcb, sems) && SemRefs(pcb, sems)
    requires c < |pcb| && pcb[c].status == Running && pcb[c].kont == User
    requires c' == pcb[c].(zsem := Sem(0, [c]), status := Blocked, kont := InWait)
    requires UsemSlots(pcb[c := c']) == UsemSlots(pcb)
    ensures var pcb' := pcb[c := c']; WaitQueues(pcb') && Konts(pcb') && SemQueues(pcb', sems) && SemRefs(pcb', sems)
  {
    hide UsemSlots;
    var pcb' := pcb[c := c'];
    assert WaitQueues(pcb') by { hide SemQueues, SemRefs, Konts; }
    assert Konts(pcb') by { hide SemQueues, SemRefs, WaitQueues; }
    assert SemQueues(pcb', sems) by { hide WaitQueues, SemRefs, Konts; }
    assert SemRefs(pcb', sems) by { hide WaitQueues, SemQueues, Konts; }
  }

  // What sys_wait finds once its sem_p is over: there is a zombie child.
  lemma ZombieIsThere(pcb: seq<Proc>, c: nat)
    requires c < |pcb| && Zombies(pcb)[c] >= 1
    ensures FindZombie(pcb, c, 0) < |pcb|
  {
    var i := BagWitness(pcb, ZombieKey, c);
    assert pcb[i].status == Zombie && pcb[i].parent == c;
  }

  // c reaps its zombie child z; its semaphore and grant together go down by one.
  ghost predicate Reaped(pcb: seq<Proc>, pcb': seq<Proc>, c: nat, z: nat) {
    && c < |pcb| && z < |pcb| && z != c && pcb[c].status == Running && pcb[z].status == Zombie && pcb[z].parent == c
    && |pcb'| == |pcb| && pcb' == pcb[c := pcb'[c]][z := pcb[z].(status := Unused)]
    && pcb'[c] == pcb[c].(childNum := pcb[c].childNum - 1, kont := User, zsem := pcb'[c].zsem)
    && pcb'[c].zsem == Sem(pcb[c].zsem.value + Grant(pcb[c]) - 1, [])
  }

  lemma ReapParents(pcb: seq<Proc>, pcb': seq<Proc>, c: nat, z: nat)
    requires Parents(pcb) && |pcb'| == |pcb| && Reaped(pcb, pcb', c, z)
    ensures Parents(pcb')
  {
    assert forall i: nat | i < |pcb| && i != z && i != c :: pcb'[i] == pcb[i];
  }

  lemma ReapCounts(pcb: seq<Proc>, pcb': seq<Proc>, c: nat, z: nat)
    requires ChildCounts(pcb) && ZombieCounts(pcb) && |pcb'| == |pcb| && Reaped(pcb, pcb', c, z)
    ensures ChildCounts(pcb') && ZombieCounts(pcb')
  {
    hide Bag;
    var c', z' := pcb'[c], pcb'[z];
    assert pcb' == pcb[c := c'][z := z'];
    assert ParentKey(c') == ParentKey(pcb[c]) && ZombieKey(c') == ZombieKey(pcb[c]);
    assert ParentKey(pcb[z]) == multiset{c} == ZombieKey(pcb[z]) && ParentKey(z') == multiset{} == ZombieKey(z');
    forall q: nat | q < |pcb'| && Alive(pcb'[q])
      ensures pcb'[q].childNum == Children(pcb')[q]
      ensures pcb'[q].zsem.value >= 0 && Zombies(pcb')[q] == pcb'[q].zsem.value + Grant(pcb'[q])
    {
      BagTwo(pcb, ParentKey, c, c', z, z', q);
      BagTwo(pcb, ZombieKey, c, c', z, z', q);
      if q != c { assert pcb'[q] == pcb[q]; }
    }
  }

  lemma ReapQueues(pcb: seq<Proc>, pcb': seq<Proc>, sems: seq<USem>, c: nat, z: nat)
    requires WaitQueues(pcb) && Konts(pcb) && SemQueues(pcb, sems) && SemRefs(pcb, sems)
    requires |pcb'| == |pcb| && Reaped(pcb, pcb', c, z)
    ensures WaitQueues(pcb') && Konts(pcb') && SemQueues(pcb', sems) && SemRefs(pcb', sems)
  {
    hide Bag, SemRefs, SemQueues, WaitQueues, Konts;
    SlotsKept(pcb, c, pcb'[c]);
    SlotsKept(pcb[c := pcb'[c]], z, pcb'[z]);
    hide UsemSlots;
    ReapQueues1(pcb, pcb', sems, c, z);
  }

  lemma ReapQueues1(pcb: seq<Proc>, pcb': seq<Proc>, sems: seq<USem>, c: nat, z: nat)
    requires WaitQueues(pcb) && Konts(pcb) && SemQueues(pcb, sems) && SemRefs(pcb, sems)
    requires |pcb'| == |pcb| && Reaped(pcb, pcb', c, z) && UsemSlots(pcb') == UsemSlots(pcb)
    ensures WaitQueues(pcb') && Konts(pcb') && SemQueues(pcb', sems) && SemRefs(pcb', sems)
  {
    hide UsemSlots;
    assert forall i: nat | i < |pcb| && i != z && i != c :: pcb'[i] == pcb[i];
    assert WaitQueues(pcb') by { hide SemQueues, SemRefs, Konts; }
    assert Konts(pcb') by { hide SemQueues, SemRefs, WaitQueues; }
    assert SemQueues(pcb', sems) by { hide WaitQueues, SemRefs, Konts; }
    assert SemRefs(pcb', sems) by { hide WaitQueues, SemQueues, Konts; }
  }

  lemma ReapInv(s: State, s': State, z: nat)
    requires Inv(s) && |s'.pcb| == |s.pcb| && Reaped(s.pcb, s'.pcb, s.curr, z)
    requires s' == s.(pcb := s'.pcb)
    ensures Inv(s')
  {
    assert Shape(s') by { hide Core; }
    hide Shape, Parents, ChildCounts, ZombieCounts, WaitQueues, Konts, SemQueues, SemRefs, Reaped;
    ReapParents(s.pcb, s'.pcb, s.curr, z);
    ReapCounts(s.pcb, s'.pcb, s.curr, z);
    ReapQueues(s.pcb, s'.pcb, s.sems, s.curr, z);
  }

  // The loop of sys_wait never goes round: whoever gets past sem_p finds a zombie at once.
  lemma WaitEndReaps(s: State, s1: State)
    requires Inv(s) && Curr(s).zsem.value + Grant(Curr(s)) >= 1
    requires s1 == s.(pcb := s.pcb[s.curr := Curr(s).(zsem := Sem(Curr(s).zsem.value + Grant(Curr(s)) - 1, []))])
    ensures var z := FindZombie(s.pcb, s.curr, 0);
      && z < |s.pcb| && z == FindZombie(s1.pcb, s.curr, 0) && |WaitEnd(s1).pcb| == |s.pcb|
      && Reaped(s.pcb, WaitEnd(s1).pcb, s.curr, z) && WaitEnd(s1) == s.(pcb := WaitEnd(s1).pcb)
  {
    var c := s.curr;
    assert Zombies(s.pcb)[c] == Curr(s).zsem.value + Grant(Curr(s));
    ZombieIsThere(s.pcb, c);
    FindZombieSame(s.pcb, s1.pcb, c, 0);
    hide Core;
    var z := FindZombie(s.pcb, c, 0);
    assert z != c && s1.pcb[z] == s.pcb[z];
    assert WaitEnd(s1).pcb == s.pcb[c := WaitEnd(s1).pcb[c]][z := s.pcb[z].(status := Unused)];
  }

  lemma {:induction false} FindZombieSame(pcb: seq<Proc>, pcb': seq<Proc>, p: int, i: nat)
    requires i <= |pcb| == |pcb'|
    requires forall k | 0 <= k < |pcb| :: pcb'[k].status == pcb[k].status && pcb'[k].parent == pcb[k].parent
    ensures FindZombie(pcb', p, i) == FindZombie(pcb, p, i)
    decreases |pcb| - i
  {
    if i < |pcb| && !(pcb[i].status == Zombie && pcb[i].parent == p) { FindZombieSame(pcb, pcb', p, i + 1); }
  }

  lemma WaitInv(s: State)
    requires Inv(s) && s.curr != 0 && Curr(s).kont == User
    ensures Inv(Wait(s))
  {
    hide Inv, Leave, WaitEnd, Shape, Core, Reaped, Zombies;
    CurrFacts(s);
    var c := Curr(s);
    if c.childNum != 0 {
      if c.zsem.value == 0 {
        WaitBlockInv(s);
      } else {
        var s1 := s.(pcb := s.pcb[s.curr := c.(zsem := c.zsem.(value := c.zsem.value - 1))]);
        WaitEndReaps(s, s1);
        ReapInv(s, WaitEnd(s1), FindZombie(s.pcb, s.curr, 0));
      }
    }
  }

  lemma ResumeInv(s: State)
    requires Inv(s) && Curr(s).kont != User
    ensures Inv(Resume(s))
  {
    hide Inv, WaitEnd, Shape, Core, Reaped, Zombies;
    CurrFacts(s);
    var c := Curr(s);
    if c.kont == InWait {
      assert s.pcb[s.curr := c.(zsem := Sem(c.zsem.value + Grant(c) - 1, []))] == s.pcb;
      WaitEndReaps(s, s);
      ReapInv(s, WaitEnd(s), FindZombie(s.pcb, s.curr, 0));
    } else {
      ResumeSemInv(s);
    }
  }

  lemma ResumeSemInv(s: State)
    requires Inv(s) && Curr(s).kont.InSem?
    ensures Inv(s.(pcb := s.pcb[s.curr := Curr(s).(kont := User)]))
  {
    hide Parents, ChildCounts, ZombieCounts, WaitQueues, Konts, SemQueues, SemRefs, UsemSlots;
    var c, c' := Curr(s), Curr(s).(kont := User);
    assert Quiet(c, c');
    hide Quiet;
    QuietCounts(s.pcb, s.curr, c');
    SlotsKept(s.pcb, s.curr, c');
    ResumeQueues(s.pcb, s.sems, s.curr, c');
  }

  lemma ResumeQueues(pcb: seq<Proc>, sems: seq<USem>, c: nat, c': Proc)
    requires WaitQueues(pcb) && Konts(pcb) && SemQueues(pcb, sems) && SemRefs(pcb, sems)
    requires c < |pcb| && pcb[c].status == Running && pcb[c].kont.InSem? && c' == pcb[c].(kont := User)
    requires UsemSlots(pcb[c := c']) == UsemSlots(pcb)
    ensures var pcb' := pcb[c := c']; WaitQueues(pcb') && Konts(pcb') && SemQueues(pcb', sems) && SemRefs(pcb', sems)
  {
    hide UsemSlots;
    var pcb' := pcb[c := c'];
    assert WaitQueues(pcb') && Konts(pcb') by { hide SemQueues, SemRefs; }
    assert SemQueues(pcb', sems) by { hide WaitQueues, SemRefs, Konts; }
    assert SemRefs(pcb', sems) by { hide WaitQueues, SemQueues, Konts; }
  }
}

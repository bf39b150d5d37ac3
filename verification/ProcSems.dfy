// sys_sem_open, sys_sem_p, sys_sem_v and sys_sem_close keep the invariant.
module ProcSems {
  import opened Bags
  import opened Procs
  import opened ProcInvariant
  import opened ProcSteps

  // Only queue and value of semaphore u change: what the new one must satisfy.
  lemma QueueUpdate(pcb: seq<Proc>, pcb': seq<Proc>, sems: seq<USem>, u: nat, m: Sem)
    requires SemQueues(pcb, sems) && u < |sems| && |pcb'| == |pcb|
    requires m.queue != [] ==> m.value == 0
    requires forall i: nat | i < |m.queue| ::
      0 <= m.queue[i] < |pcb'| && pcb'[m.queue[i]].status == Blocked && pcb'[m.queue[i]].kont == InSem(u)
    requires forall i: nat, j: nat | i < j < |m.queue| :: m.queue[i] != m.queue[j]
    requires forall w: nat | w < |pcb| && pcb'[w].status == Blocked && pcb'[w].kont == InSem(u) :: w in m.queue
    requires forall w: nat | w < |pcb| && pcb[w].kont.InSem? && pcb[w].kont.sem != u ::
      pcb'[w].kont == pcb[w].kont && (pcb'[w].status == Blocked <==> pcb[w].status == Blocked)
    requires forall w: nat | w < |pcb| && pcb'[w].kont.InSem? && pcb'[w].kont.sem != u :: pcb'[w].kont == pcb[w].kont
    ensures SemQueues(pcb', sems[u := sems[u].(sem := m)])
  {
    var sems' := sems[u := sems[u].(sem := m)];
    forall v: nat, i: nat | v < |sems'| && i < |sems'[v].sem.queue|
      ensures var w := sems'[v].sem.queue[i]; 0 <= w < |pcb'| && pcb'[w].status == Blocked && pcb'[w].kont == InSem(v)
    {
      if v != u { assert sems'[v] == sems[v]; var w := sems[v].sem.queue[i]; assert pcb[w].kont == InSem(v); }
    }
    forall w: nat | w < |pcb'| && pcb'[w].status == Blocked && pcb'[w].kont.InSem?
      ensures 0 <= pcb'[w].kont.sem < |sems'| && w in sems'[pcb'[w].kont.sem].sem.queue
    {
      if pcb'[w].kont.sem != u { assert pcb'[w].kont == pcb[w].kont; }
    }
  }

  lemma RefsSameSem(pcb: seq<Proc>, pcb': seq<Proc>, sems: seq<USem>, u: nat, m: Sem)
    requires SemRefs(pcb, sems) && u < |sems| && |pcb'| == |pcb| && UsemSlots(pcb') == UsemSlots(pcb)
    requires forall i: nat | i < |pcb| :: pcb'[i].usems == pcb[i].usems && (Alive(pcb[i]) <==> Alive(pcb'[i]))
    requires forall i: nat | i < |pcb| && pcb'[i].status == Blocked && pcb'[i].kont.InSem? ::
      (pcb[i].status == Blocked && pcb[i].kont == pcb'[i].kont) || pcb'[i].kont.sem == SERIAL
      || pcb'[i].kont.sem in pcb[i].usems
    ensures SemRefs(pcb', sems[u := sems[u].(sem := m)])
  {
    hide UsemSlots;
  }

  // The slot a call names holds a semaphore.
  lemma SlotFacts(s: State, id: int)
    requires Inv(s)
    ensures s.curr < |s.pcb|
    ensures var u := UsemOf(Curr(s), id);
      u == NULL || (0 <= u < |s.sems| && u != SERIAL && 0 <= id < MAX_USEM && u in Curr(s).usems)
    ensures var u := UsemOf(Curr(s), id); u != NULL ==> s.sems[u].sem.queue != [] ==> s.sems[u].sem.value == 0
  {
    hide Shape, Parents, ChildCounts, ZombieCounts, WaitQueues, Konts;
    CurrFacts(s);
  }

  // A semaphore the running process may operate on: one it has open, or the one of the serial line.
  predicate Mine(s: State, u: int)
    requires s.curr < |s.pcb|
  {
    0 <= u < |s.sems| && (u == SERIAL || u in Curr(s).usems)
  }

  lemma QueueFacts(s: State, u: int)
    requires Inv(s) && 0 <= u < |s.sems|
    ensures s.sems[u].sem.queue != [] ==> s.sems[u].sem.value == 0
  {
    hide Shape, Parents, ChildCounts, ZombieCounts, WaitQueues, Konts, SemRefs;
  }

  lemma SerialMine(s: State)
    requires Inv(s)
    ensures s.curr < |s.pcb| && Mine(s, SERIAL)
  {
    hide Core;
  }

  // ---- P ----

  lemma PTakes(s: State, u: int)
    requires Inv(s) && s.curr < |s.pcb| && Mine(s, u) && s.sems[u].sem.value != 0
    ensures Inv(PSem(s, u))
  {
    hide Parents, ChildCounts, ZombieCounts, WaitQueues, Konts, UsemSlots, Leave;
    QueueFacts(s, u);
    var m := s.sems[u].sem;
    assert m.queue == [];
    TakeQueues(s.pcb, s.sems, u);
    hide SemQueues;
    RefsSameSem(s.pcb, s.pcb, s.sems, u, m.(value := m.value - 1));
  }

  lemma TakeQueues(pcb: seq<Proc>, sems: seq<USem>, u: nat)
    requires SemQueues(pcb, sems) && u < |sems| && sems[u].sem.queue == []
    ensures SemQueues(pcb, sems[u := sems[u].(sem := sems[u].sem.(value := sems[u].sem.value - 1))])
    ensures SemQueues(pcb, sems[u := sems[u].(sem := sems[u].sem.(value := sems[u].sem.value + 1))])
  {
    var m := sems[u].sem;
    assert forall w: nat | w < |pcb| && pcb[w].status == Blocked && pcb[w].kont == InSem(u) :: w in m.queue;
    QueueUpdate(pcb, pcb, sems, u, m.(value := m.value - 1));
    QueueUpdate(pcb, pcb, sems, u, m.(value := m.value + 1));
  }

  lemma PBlocks(s: State, u: int)
    requires Inv(s) && s.curr < |s.pcb| && s.curr != 0 && Curr(s).kont == User && Mine(s, u) && s.sems[u].sem.value == 0
    ensures Inv(PSem(s, u))
  {
    hide Inv, Core, Shape, Parents, ChildCounts, ZombieCounts, WaitQueues, Konts, SemQueues, SemRefs, UsemSlots,
      Zombies, Schedule;
    CurrFacts(s);
    CoreWhole(s.pcb, s.sems);
    var c := s.curr;
    var m := s.sems[u].sem;
    var c' := Curr(s).(status := Blocked, kont := InSem(u));
    var m' := m.(queue := m.queue + [c]);
    var sems' := s.sems[u := s.sems[u].(sem := m')];
    assert Quiet(Curr(s), c');
    hide Quiet;
    QuietCounts(s.pcb, c, c');
    SlotsKept(s.pcb, c, c');
    BlockQueues(s.pcb, s.sems, c, u);
    BlockRefs(s.pcb, s.sems, c, u);
    BlockKonts(s.pcb, c, u);
    CoreParts(s.pcb[c := c'], sems');
    ShapeSems(s, sems');
    LeaveInv(s.(sems := sems'), c');
  }

  lemma ShapeSems(s: State, sems: seq<USem>)
    requires Shape(s) && |sems| == |s.sems|
    ensures Shape(s.(sems := sems))
  {}

  lemma BlockQueues(pcb: seq<Proc>, sems: seq<USem>, c: nat, u: nat)
    requires SemQueues(pcb, sems) && c < |pcb| && u < |sems| && pcb[c].status == Running && pcb[c].kont == User
      && sems[u].sem.value == 0
    ensures var m := sems[u].sem;
      SemQueues(pcb[c := pcb[c].(status := Blocked, kont := InSem(u))],
        sems[u := sems[u].(sem := m.(queue := m.queue + [c]))])
  {
    var m, pcb' := sems[u].sem, pcb[c := pcb[c].(status := Blocked, kont := InSem(u))];
    var m' := m.(queue := m.queue + [c]);
    forall i: nat | i < |m.queue| ensures m.queue[i] != c { assert pcb[m.queue[i]].status == Blocked; }
    forall w: nat | w < |pcb| && pcb'[w].status == Blocked && pcb'[w].kont == InSem(u) ensures w in m'.queue {
      if w == c { assert m'.queue[|m.queue|] == c; } else { assert w in m.queue; }
    }
    QueueUpdate(pcb, pcb', sems, u, m');
  }

  lemma BlockRefs(pcb: seq<Proc>, sems: seq<USem>, c: nat, u: nat)
    requires SemRefs(pcb, sems) && c < |pcb| && u < |sems| && pcb[c].status == Running
      && (u == SERIAL || u in pcb[c].usems)
    requires UsemSlots(pcb[c := pcb[c].(status := Blocked, kont := InSem(u))]) == UsemSlots(pcb)
    ensures var m := sems[u].sem;
      SemRefs(pcb[c := pcb[c].(status := Blocked, kont := InSem(u))],
        sems[u := sems[u].(sem := m.(queue := m.queue + [c]))])
  {
    hide UsemSlots;
    var m, pcb' := sems[u].sem, pcb[c := pcb[c].(status := Blocked, kont := InSem(u))];
    RefsSameSem(pcb, pcb', sems, u, m.(queue := m.queue + [c]));
  }

  lemma BlockKonts(pcb: seq<Proc>, c: nat, u: int)
    requires WaitQueues(pcb) && Konts(pcb) && c < |pcb| && pcb[c].status == Running && pcb[c].kont == User
    ensures var pcb' := pcb[c := pcb[c].(status := Blocked, kont := InSem(u))]; WaitQueues(pcb') && Konts(pcb')
  {}

  lemma PInv(s: State, u: int)
    requires Inv(s) && s.curr < |s.pcb| && s.curr != 0 && Curr(s).kont == User && Mine(s, u)
    ensures Inv(PSem(s, u))
  {
    hide Inv, PSem;
    if s.sems[u].sem.value == 0 { PBlocks(s, u); } else { PTakes(s, u); }
  }

  lemma SemPInv(s: State, id: int)
    requires Inv(s) && s.curr != 0 && Curr(s).kont == User
    ensures Inv(SemP(s, id))
  {
    hide Inv;
    SlotFacts(s, id);
    if UsemOf(Curr(s), id) != NULL {
      hide PSem;
      PInv(s, UsemOf(Curr(s), id));
    }
  }

  // ---- V ----

  lemma VCounts(s: State, u: int)
    requires Inv(s) && 0 <= u < |s.sems| && s.sems[u].sem.queue == []
    ensures Inv(VSem(s, u))
  {
    hide Parents, ChildCounts, ZombieCounts, WaitQueues, Konts, UsemSlots;
    var m := s.sems[u].sem;
    TakeQueues(s.pcb, s.sems, u);
    hide SemQueues;
    RefsSameSem(s.pcb, s.pcb, s.sems, u, m.(value := m.value + 1));
  }

  lemma VWakes(s: State, u: int)
    requires Inv(s) && 0 <= u < |s.sems| && s.sems[u].sem.queue != []
    ensures Inv(VSem(s, u))
  {
    hide Inv, Core, Shape, Parents, ChildCounts, ZombieCounts, WaitQueues, Konts, SemQueues, SemRefs, UsemSlots,
      Zombies;
    CurrFacts(s);
    CoreWhole(s.pcb, s.sems);
    var w := s.sems[u].sem.queue[0];
    HeadFacts(s.pcb, s.sems, u);
    var w' := s.pcb[w].(status := Ready);
    assert Quiet(s.pcb[w], w');
    hide Quiet;
    QuietCounts(s.pcb, w, w');
    SlotsKept(s.pcb, w, w');
    WakeQueues(s.pcb, s.sems, u);
    WakeKonts(s.pcb, w);
    WakeRefs(s.pcb, s.sems, u, w);
    CoreParts(s.pcb[w := w'], VSem(s, u).sems);
    WakeShape(s, w);
    assert VSem(s, u).pcb == s.pcb[w := w'];
    InvParts(VSem(s, u));
  }

  lemma InvParts(s: State)
    requires Shape(s) && Core(s.pcb, s.sems)
    ensures Inv(s)
  {}

  lemma HeadFacts(pcb: seq<Proc>, sems: seq<USem>, u: nat)
    requires SemQueues(pcb, sems) && u < |sems| && sems[u].sem.queue != []
    ensures var w := sems[u].sem.queue[0]; 0 <= w < |pcb| && pcb[w].status == Blocked && pcb[w].kont == InSem(u)
  {}

  lemma WakeShape(s: State, w: nat)
    requires Shape(s) && w < PROC_NUM && s.pcb[w].status == Blocked
    ensures forall sems | |sems| == SEM_NUM ::
      Shape(s.(pcb := s.pcb[w := s.pcb[w].(status := Ready)], sems := sems))
  {}

  lemma WakeQueues(pcb: seq<Proc>, sems: seq<USem>, u: nat)
    requires SemQueues(pcb, sems) && u < |sems| && sems[u].sem.queue != []
    ensures var m, w := sems[u].sem, sems[u].sem.queue[0];
      && 0 <= w < |pcb|
      && SemQueues(pcb[w := pcb[w].(status := Ready)], sems[u := sems[u].(sem := m.(queue := m.queue[1..]))])
  {
    var m := sems[u].sem;
    var w := m.queue[0];
    assert pcb[w].kont == InSem(u) && pcb[w].status == Blocked;
    var pcb', m' := pcb[w := pcb[w].(status := Ready)], m.(queue := m.queue[1..]);
    forall i: nat | i < |m'.queue| ensures m'.queue[i] != w && m'.queue[i] == m.queue[i + 1] {
      assert m.queue[0] != m.queue[i + 1];
    }
    forall x: nat | x < |pcb| && pcb'[x].status == Blocked && pcb'[x].kont == InSem(u) ensures x in m'.queue {
      assert x in m.queue && x != w;
      var i :| 0 <= i < |m.queue| && m.queue[i] == x;
      assert m'.queue[i - 1] == x;
    }
    QueueUpdate(pcb, pcb', sems, u, m');
  }

  lemma WakeKonts(pcb: seq<Proc>, w: nat)
    requires WaitQueues(pcb) && Konts(pcb) && w < |pcb| && pcb[w].status == Blocked && pcb[w].kont.InSem?
    ensures var pcb' := pcb[w := pcb[w].(status := Ready)]; WaitQueues(pcb') && Konts(pcb')
  {}

  lemma WakeRefs(pcb: seq<Proc>, sems: seq<USem>, u: nat, w: nat)
    requires SemRefs(pcb, sems) && u < |sems| && w < |pcb| && pcb[w].status == Blocked
    requires UsemSlots(pcb[w := pcb[w].(status := Ready)]) == UsemSlots(pcb)
    ensures forall m: Sem :: SemRefs(pcb[w := pcb[w].(status := Ready)], sems[u := sems[u].(sem := m)])
  {
    hide UsemSlots;
    forall m: Sem ensures SemRefs(pcb[w := pcb[w].(status := Ready)], sems[u := sems[u].(sem := m)]) {
      RefsSameSem(pcb, pcb[w := pcb[w].(status := Ready)], sems, u, m);
    }
  }

  lemma VInv(s: State, u: int)
    requires Inv(s) && 0 <= u < |s.sems|
    ensures Inv(VSem(s, u))
  {
    hide Inv, VSem;
    if s.sems[u].sem.queue == [] { VCounts(s, u); } else { VWakes(s, u); }
  }

  lemma SemVInv(s: State, id: int)
    requires Inv(s) && Curr(s).kont == User
    ensures Inv(SemV(s, id))
  {
    hide Inv;
    SlotFacts(s, id);
    if UsemOf(Curr(s), id) != NULL {
      hide VSem;
      VInv(s, UsemOf(Curr(s), id));
    }
  }

  // ---- open and close ----

  // A semaphore somebody waits on has a reference.
  lemma WaitedIsHeld(pcb: seq<Proc>, sems: seq<USem>, u: nat)
    requires SemQueues(pcb, sems) && SemRefs(pcb, sems) && u < |sems|
    ensures sems[u].sem.queue != [] ==> sems[u].ref >= 1
  {
    if sems[u].sem.queue != [] {
      var w := sems[u].sem.queue[0];
      BagUpdate(pcb, UsemKey, w, pcb[w]);
      assert u == SERIAL || u in multiset(pcb[w].usems);
    }
  }

  // usem_alloc never takes a semaphore that anybody waits on.
  lemma FreeSemQueue(pcb: seq<Proc>, sems: seq<USem>, u: nat)
    requires SemQueues(pcb, sems) && SemRefs(pcb, sems) && u < |sems| && sems[u].ref == 0
    ensures sems[u].sem.queue == []
    ensures forall w: nat | w < |pcb| && pcb[w].status == Blocked :: pcb[w].kont != InSem(u)
  {
    WaitedIsHeld(pcb, sems, u);
    hide SemRefs;
  }

  // One slot of the running process changes from x to y, and the counts of the two follow.
  lemma SlotChange(pcb: seq<Proc>, c: nat, id: nat, y: int, u: nat)
    requires c < |pcb| && id < |pcb[c].usems|
    ensures var c' := pcb[c].(usems := pcb[c].usems[id := y]);
      UsemSlots(pcb[c := c'])[u]
        + (if pcb[c].usems[id] == u then 1 else 0) == UsemSlots(pcb)[u] + (if y == u then 1 else 0)
  {
    hide Bag;
    BagAt(pcb, UsemKey, c, pcb[c].(usems := pcb[c].usems[id := y]), u);
  }

  lemma SlotInv(s: State, id: nat, y: int, sems': seq<USem>)
    requires Inv(s) && id < |Curr(s).usems| && |sems'| == |s.sems| && SlotOk(y, |s.sems|)
    requires SemQueues(s.pcb, sems')
    requires forall u: nat | u < |s.sems| ::
      sems'[u].ref == s.sems[u].ref - (if Curr(s).usems[id] == u then 1 else 0) + (if y == u then 1 else 0)
    ensures Inv(s.(pcb := s.pcb[s.curr := Curr(s).(usems := Curr(s).usems[id := y])], sems := sems'))
  {
    hide Inv, Core, Shape, Parents, ChildCounts, ZombieCounts, WaitQueues, Konts, SemQueues, SemRefs, UsemSlots,
      Zombies;
    CurrFacts(s);
    CoreWhole(s.pcb, s.sems);
    var c' := Curr(s).(usems := Curr(s).usems[id := y]);
    var pcb' := s.pcb[s.curr := c'];
    assert Quiet(Curr(s), c');
    hide Quiet;
    QuietCounts(s.pcb, s.curr, c');
    SlotQueues(s.pcb, sems', s.curr, id, y);
    forall u: nat | u < |sems'| ensures sems'[u].ref == UsemSlots(pcb')[u] + KernelRef(u) {
      SlotChange(s.pcb, s.curr, id, y, u);
      SlotCount(s.pcb, s.sems, u);
    }
    SlotRefs(s.pcb, s.sems, sems', s.curr, id, y);
    CoreParts(pcb', sems');
    SlotShape(s, c', sems');
    InvParts(s.(pcb := pcb', sems := sems'));
  }

  lemma SlotCount(pcb: seq<Proc>, sems: seq<USem>, u: nat)
    requires SemRefs(pcb, sems) && u < |sems|
    ensures sems[u].ref == UsemSlots(pcb)[u] + KernelRef(u)
  {}

  lemma SlotShape(s: State, c': Proc, sems: seq<USem>)
    requires Shape(s) && |sems| == |s.sems| && c'.status == Curr(s).status && c'.kont == Curr(s).kont
    ensures Shape(s.(pcb := s.pcb[s.curr := c'], sems := sems))
  {}

  lemma SlotQueues(pcb: seq<Proc>, sems: seq<USem>, c: nat, id: nat, y: int)
    requires WaitQueues(pcb) && Konts(pcb) && SemQueues(pcb, sems) && c < |pcb| && id < |pcb[c].usems|
    ensures var pcb' := pcb[c := pcb[c].(usems := pcb[c].usems[id := y])];
      WaitQueues(pcb') && Konts(pcb') && SemQueues(pcb', sems)
  {
    var pcb' := pcb[c := pcb[c].(usems := pcb[c].usems[id := y])];
    assert WaitQueues(pcb') && Konts(pcb') by { hide SemQueues; }
    assert SemQueues(pcb', sems) by { hide WaitQueues, Konts; }
  }

  lemma SlotRefs(pcb: seq<Proc>, sems: seq<USem>, sems': seq<USem>, c: nat, id: nat, y: int)
    requires SemRefs(pcb, sems) && c < |pcb| && pcb[c].status == Running && id < |pcb[c].usems| && |sems'| == |sems|
    requires SlotOk(y, |sems|)
    requires var pcb' := pcb[c := pcb[c].(usems := pcb[c].usems[id := y])];
      forall u: nat | u < |sems'| :: sems'[u].ref == UsemSlots(pcb')[u] + KernelRef(u)
    ensures SemRefs(pcb[c := pcb[c].(usems := pcb[c].usems[id := y])], sems')
  {
    hide UsemSlots;
  }

  lemma SemOpenInv(s: State, value: int)
    requires Inv(s) && Curr(s).kont == User
    ensures Inv(SemOpen(s, value))
  {
    var c := Curr(s);
    var id, u := FreeSlot(c.usems, 0), FreeSem(s.sems, 0);
    if id < |c.usems| && u < |s.sems| {
      var sems' := s.sems[u := USem(Sem(value, []), 1)];
      assert SemQueues(s.pcb, sems') by {
        hide Shape, Parents, ChildCounts, ZombieCounts, WaitQueues, Konts;
        FreeSemQueue(s.pcb, s.sems, u);
        hide SemRefs;
        QueueUpdate(s.pcb, s.pcb, s.sems, u, Sem(value, []));
        assert SemQueues(s.pcb, s.sems[u := s.sems[u].(sem := Sem(value, []))]);
        QueuesOnly(s.pcb, s.sems[u := s.sems[u].(sem := Sem(value, []))], sems');
      }
      SerialTaken(s);
      hide Inv, SemQueues;
      SlotInv(s, id, u, sems');
    }
  }

  // The semaphore of the serial line is never free.
  lemma SerialTaken(s: State)
    requires Inv(s)
    ensures FreeSem(s.sems, 0) != SERIAL
  {
    hide Parents, ChildCounts, ZombieCounts, WaitQueues, Konts, SemQueues, SemRefs;
    if SERIAL < |s.sems| { SlotCount(s.pcb, s.sems, SERIAL); }
  }

  lemma QueuesOnly(pcb: seq<Proc>, sems: seq<USem>, sems': seq<USem>)
    requires SemQueues(pcb, sems) && |sems'| == |sems| && forall u: nat | u < |sems| :: sems'[u].sem == sems[u].sem
    ensures SemQueues(pcb, sems')
  {}

  lemma SemCloseInv(s: State, id: int)
    requires Inv(s) && Curr(s).kont == User
    ensures Inv(SemClose(s, id))
  {
    hide Shape, Parents, ChildCounts, ZombieCounts, WaitQueues, Konts, SemRefs;
    SlotFacts(s, id);
    var u := UsemOf(Curr(s), id);
    if u != NULL {
      var sems' := s.sems[u := s.sems[u].(ref := s.sems[u].ref - 1)];
      QueuesOnly(s.pcb, s.sems, sems');
      hide Inv, Core, SemQueues;
      SlotInv(s, id, NULL, sems');
    }
  }
}

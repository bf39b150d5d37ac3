// What processes hold: descriptors on open files, and working directories.
module FileRefs {
  import opened Bags
  import opened Procs
  import opened ProcInvariant
  import opened ProcSteps
  import opened ProcSems
  import opened OpenFiles

  function FdKey(p: Proc): multiset<int> { multiset(p.files) }

  function CwdKey(p: Proc): multiset<nat> {
    if p.cwd >= 0 then multiset{p.cwd as nat} else multiset{}
  }

  // All descriptors, and all working directories.
  function Fds(t: seq<Proc>): multiset<int> { Bag(t, FdKey) }
  function Cwds(t: seq<Proc>): multiset<nat> { Bag(t, CwdKey) }

  // The reference count of every open file is the number of descriptors on it.
  ghost predicate FdCounts(t: seq<Proc>, files: seq<OpenFile>) {
    && |files| == TOTAL_FILE
    && (forall k: nat | k < TOTAL_FILE :: files[k].ref == Fds(t)[k])
    && (forall i: nat | i < |t| :: FdsOk(t[i].files))
  }

  predicate FdsOk(fds: seq<int>) {
    |fds| == MAX_UFILE && forall j: nat | j < |fds| :: fds[j] == NULL || 0 <= fds[j] < TOTAL_FILE
  }

  // Processes that are not alive hold nothing; the others stand somewhere.
  ghost predicate Tidy(t: seq<Proc>) {
    forall i: nat | i < |t| ::
      if Alive(t[i]) then t[i].cwd >= 0 else t[i].files == NoSlots(MAX_UFILE) && t[i].cwd == NULL
  }

  // ---- one descriptor, one directory ----

  lemma FdHeld(t: seq<Proc>, files: seq<OpenFile>, p: nat, fd: nat)
    requires FdCounts(t, files) && p < |t| && fd < MAX_UFILE && t[p].files[fd] != NULL
    ensures 0 <= t[p].files[fd] < TOTAL_FILE && files[t[p].files[fd]].ref >= 1
  {
    hide Bag;
    BagUpdate(t, FdKey, p, t[p]);
    assert t[p].files[fd] in multiset(t[p].files);
  }

  function SlotOf(t: seq<Proc>, p: nat, fd: nat): int {
    if p < |t| && fd < |t[p].files| then t[p].files[fd] else NULL
  }

  // Descriptor fd of process p now leads to open file k.
  function WithFile(t: seq<Proc>, p: nat, fd: nat, k: int): (t': seq<Proc>)
    ensures |t'| == |t|
  {
    if p < |t| && fd < |t[p].files| then t[p := t[p].(files := t[p].files[fd := k])] else t
  }

  lemma FdSet(t: seq<Proc>, files: seq<OpenFile>, files': seq<OpenFile>, p: nat, fd: nat, k: int)
    requires FdCounts(t, files) && p < |t| && fd < MAX_UFILE && (k == NULL || 0 <= k < TOTAL_FILE)
      && |files'| == TOTAL_FILE
    requires forall l: nat | l < TOTAL_FILE ::
      files'[l].ref + (if l == t[p].files[fd] then 1 else 0) == files[l].ref + (if l == k then 1 else 0)
    ensures FdCounts(WithFile(t, p, fd, k), files')
  {
    hide Bag;
    var q := t[p].(files := t[p].files[fd := k]);
    forall l: nat | l < TOTAL_FILE ensures files'[l].ref == Fds(t[p := q])[l] {
      BagAt(t, FdKey, p, q, l);
    }
  }

  lemma WithSame(t: seq<Proc>, p: nat, fd: nat)
    requires SlotOf(t, p, fd) == NULL
    ensures WithFile(t, p, fd, NULL) == t
  {
    if p < |t| && fd < |t[p].files| { assert t[p].files[fd := NULL] == t[p].files; }
  }

  lemma WithSameCwds(t: seq<Proc>, p: nat, fd: nat, k: int)
    ensures Cwds(WithFile(t, p, fd, k)) == Cwds(t)
    ensures p < |t| && fd < |t[p].files| ==> WithFile(t, p, fd, k) == t[p := t[p].(files := t[p].files[fd := k])]
  {
    BagsFiledCwd(t, WithFile(t, p, fd, k));
  }

  lemma FdMore(t: seq<Proc>, files: seq<OpenFile>, p: nat, fd: nat, k: nat)
    requires FdCounts(t, files) && p < |t| && fd < MAX_UFILE && SlotOf(t, p, fd) == NULL && k < TOTAL_FILE
    ensures FdCounts(WithFile(t, p, fd, k), files[k := files[k].(ref := files[k].ref + 1)])
  {
    FdSet(t, files, files[k := files[k].(ref := files[k].ref + 1)], p, fd, k);
  }

  lemma FdLess(t: seq<Proc>, files: seq<OpenFile>, p: nat, fd: nat)
    requires FdCounts(t, files) && p < |t| && fd < MAX_UFILE && SlotOf(t, p, fd) != NULL
    ensures var k := SlotOf(t, p, fd);
      0 <= k < |files| && files[k].ref >= 1
        && FdCounts(WithFile(t, p, fd, NULL), files[k := files[k].(ref := files[k].ref - 1)])
  {
    var k := SlotOf(t, p, fd);
    FdHeld(t, files, p, fd);
    FdSet(t, files, files[k := files[k].(ref := files[k].ref - 1)], p, fd, NULL);
  }

  lemma CwdSet(t: seq<Proc>, p: nat, cwd: int)
    requires p < |t|
    ensures Cwds(t[p := t[p].(cwd := cwd)]) == Cwds(t) - CwdKey(t[p]) + CwdKey(t[p].(cwd := cwd))
    ensures CwdKey(t[p]) <= Cwds(t)
  {
    hide Bag;
    BagUpdate(t, CwdKey, p, t[p].(cwd := cwd));
  }

  // Steps that leave descriptors and directories alone.
  ghost predicate Filed(t: seq<Proc>, t': seq<Proc>) {
    && |t'| == |t|
    && forall i: nat | i < |t| :: t'[i].files == t[i].files && t'[i].cwd == t[i].cwd && (Alive(t'[i]) <==> Alive(t[i]))
  }

  lemma {:induction false} BagsFiled(t: seq<Proc>, t': seq<Proc>)
    requires |t'| == |t| && forall i: nat | i < |t| :: t'[i].files == t[i].files && t'[i].cwd == t[i].cwd
    ensures Fds(t') == Fds(t) && Cwds(t') == Cwds(t)
  {
    if t != [] { BagsFiled(t[..|t| - 1], t'[..|t| - 1]); }
  }

  lemma {:induction false} BagsFiledCwd(t: seq<Proc>, t': seq<Proc>)
    requires |t'| == |t| && forall i: nat | i < |t| :: t'[i].cwd == t[i].cwd
    ensures Cwds(t') == Cwds(t)
  {
    if t != [] { BagsFiledCwd(t[..|t| - 1], t'[..|t| - 1]); }
  }

  lemma {:induction false} BagsFiledFd(t: seq<Proc>, t': seq<Proc>)
    requires |t'| == |t| && forall i: nat | i < |t| :: t'[i].files == t[i].files
    ensures Fds(t') == Fds(t)
  {
    if t != [] { BagsFiledFd(t[..|t| - 1], t'[..|t| - 1]); }
  }

  lemma FdSame(t: seq<Proc>, t': seq<Proc>, files: seq<OpenFile>)
    requires FdCounts(t, files) && |t'| == |t| && forall i: nat | i < |t| :: t'[i].files == t[i].files
    ensures FdCounts(t', files)
  {
    BagsFiledFd(t, t');
    hide Fds;
  }

  lemma FdLen(t: seq<Proc>, files: seq<OpenFile>, p: nat)
    requires FdCounts(t, files) && p < |t|
    ensures |t[p].files| == MAX_UFILE
  {}

  lemma CwdGain(t: seq<Proc>, p: nat, cwd: nat)
    requires p < |t| && t[p].cwd == NULL
    ensures Cwds(t[p := t[p].(cwd := cwd)]) == Cwds(t) + multiset{cwd}
  {
    CwdSet(t, p, cwd);
    hide Cwds;
    assert Cwds(t) - multiset{} == Cwds(t);
  }

  lemma CwdLoss(t: seq<Proc>, p: nat)
    requires p < |t| && t[p].cwd >= 0
    ensures Cwds(t[p := t[p].(cwd := NULL)]) == Cwds(t) - multiset{t[p].cwd as nat} && t[p].cwd as nat in Cwds(t)
  {
    CwdSet(t, p, NULL);
    hide Cwds;
    assert t[p].cwd as nat in CwdKey(t[p]);
  }

  lemma FiledKeeps(t: seq<Proc>, t': seq<Proc>, files: seq<OpenFile>)
    requires FdCounts(t, files) && Tidy(t) && Filed(t, t')
    ensures FdCounts(t', files) && Tidy(t') && Cwds(t') == Cwds(t)
  {
    BagsFiled(t, t');
    hide Fds, Alive;
  }

  lemma FiledSchedule(s: State)
    requires s.curr < |s.pcb|
    ensures Filed(s.pcb, Procs.Schedule(s).pcb)
  {}

  lemma FiledLeave(s: State, status: Status, k: Kont)
    requires s.curr < |s.pcb| && Curr(s).status == Running && (status == Ready || status == Blocked)
    ensures Filed(s.pcb, Leave(s, status, k).pcb)
  {
    hide Procs.Schedule;
    FiledSchedule(s.(pcb := s.pcb[s.curr := Curr(s).(status := status, kont := k)]));
  }

  lemma FiledTrans(a: seq<Proc>, b: seq<Proc>, c: seq<Proc>)
    requires Filed(a, b) && Filed(b, c)
    ensures Filed(a, c)
  {}

  lemma FiledOne(t: seq<Proc>, i: nat, p: Proc)
    requires i < |t| && p.files == t[i].files && p.cwd == t[i].cwd && (Alive(p) <==> Alive(t[i]))
    ensures Filed(t, t[i := p])
  {}

  lemma FiledReap(t: seq<Proc>, t': seq<Proc>, c: nat, z: nat)
    requires Reaped(t, t', c, z)
    ensures Filed(t, t')
  {}

  lemma FiledWait(s: State)
    requires Inv(s) && s.curr != 0 && Curr(s).kont == User
    ensures Filed(s.pcb, Wait(s).pcb)
  {
    hide Inv, Leave, WaitEnd, Zombies, Shape, Core, Filed, Reaped;
    CurrFacts(s);
    var c := Curr(s);
    FiledOne(s.pcb, s.curr, c);
    assert s.pcb[s.curr := c] == s.pcb;
    if c.childNum != 0 && c.zsem.value == 0 {
      var t := s.(pcb := s.pcb[s.curr := c.(zsem := c.zsem.(queue := c.zsem.queue + [s.curr]))]);
      FiledOne(s.pcb, s.curr, t.pcb[s.curr]);
      FiledLeave(t, Blocked, InWait);
      FiledTrans(s.pcb, t.pcb, Wait(s).pcb);
    } else if c.childNum != 0 {
      var s1 := s.(pcb := s.pcb[s.curr := c.(zsem := c.zsem.(value := c.zsem.value - 1))]);
      WaitEndReaps(s, s1);
      FiledReap(s.pcb, Wait(s).pcb, s.curr, FindZombie(s.pcb, s.curr, 0));
    }
  }

  lemma FiledResume(s: State)
    requires Inv(s) && s.curr != 0 && Curr(s).kont != User
    ensures Filed(s.pcb, Resume(s).pcb)
  {
    hide Inv, WaitEnd, Zombies, Shape, Core, Filed, Reaped;
    CurrFacts(s);
    var c := Curr(s);
    if c.kont == InWait {
      assert s.pcb[s.curr := c.(zsem := Sem(c.zsem.value + Grant(c) - 1, []))] == s.pcb;
      WaitEndReaps(s, s);
      FiledReap(s.pcb, Resume(s).pcb, s.curr, FindZombie(s.pcb, s.curr, 0));
    } else {
      FiledOne(s.pcb, s.curr, c.(kont := User));
    }
  }

  predicate FileStep(e: Event) { e.ForkCall? || e.ExitCall? || e.FilesCall? }

  lemma FiledP(s: State, u: int)
    requires Inv(s) && s.curr < |s.pcb|
    ensures Filed(s.pcb, PSem(s, u).pcb)
  {
    hide Inv, Core, Shape, Filed, Leave, Zombies;
    CurrFacts(s);
    FiledOne(s.pcb, s.curr, Curr(s));
    assert s.pcb[s.curr := Curr(s)] == s.pcb;
    if 0 <= u < |s.sems| {
      var m := s.sems[u].sem;
      FiledLeave(s.(sems := s.sems[u := s.sems[u].(sem := m.(queue := m.queue + [s.curr]))]), Blocked, InSem(u));
    }
  }

  lemma FiledV(s: State, u: int)
    requires Inv(s) && s.curr < |s.pcb|
    ensures Filed(s.pcb, VSem(s, u).pcb)
  {
    hide Parents, ChildCounts, ZombieCounts, WaitQueues, Konts, SemQueues, SemRefs, Filed;
    CoreWhole(s.pcb, s.sems);
    FiledOne(s.pcb, s.curr, Curr(s));
    assert s.pcb[s.curr := Curr(s)] == s.pcb;
    if 0 <= u < |s.sems| && s.sems[u].sem.queue != [] {
      HeadFacts(s.pcb, s.sems, u);
      var w := s.sems[u].sem.queue[0];
      FiledOne(s.pcb, w, s.pcb[w].(status := Ready));
    }
  }

  lemma StepFiled(s: State, e: Event)
    requires Inv(s) && Enabled(s, e) && !FileStep(e)
    ensures Filed(s.pcb, Step(s, e).pcb)
  {
    hide Inv, Zombies, Shape, Core, Filed, Leave, Wait, Resume, SemQueues, SemRefs;
    CurrFacts(s);
    CoreWhole(s.pcb, s.sems);
    var c := Curr(s);
    FiledOne(s.pcb, s.curr, c);
    assert s.pcb[s.curr := c] == s.pcb;
    match e
    case Yield => FiledLeave(s, Ready, User);
    case WaitCall => FiledWait(s);
    case SemOpenCall(v) =>
      var id, u := FreeSlot(c.usems, 0), FreeSem(s.sems, 0);
      if id < |c.usems| && u < |s.sems| { FiledOne(s.pcb, s.curr, c.(usems := c.usems[id := u])); }
    case SemPCall(id) => FiledP(s, UsemOf(Curr(s), id));
    case SemVCall(id) => FiledV(s, UsemOf(Curr(s), id));
    case GetcharCall => FiledP(s, SERIAL);
    case KeyCall => FiledV(s, SERIAL);
    case SemCloseCall(id) =>
      var u := UsemOf(c, id);
      if 0 <= u < |s.sems| { FiledOne(s.pcb, s.curr, c.(usems := c.usems[id := NULL])); }
    case ResumeCall => FiledResume(s);
  }
}

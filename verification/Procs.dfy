// kernel/src/proc.c, sem.c and the process half of syscall.c, as a transition system: what
// one kernel entry does between two schedules, over a table of processes and semaphores.
module Procs {

  const PROC_NUM := 64
  const MAX_USEM := 32
  const MAX_UFILE := 32
  const USER_SEM_NUM := 128
  const SEM_NUM := USER_SEM_NUM + 1
  const SERIAL := USER_SEM_NUM     // serial_sem, which belongs to the kernel
  const NULL := -1

  datatype Status = Unused | Uninit | Running | Ready | Zombie | Blocked

  // Where a process goes on when it is next run: in user mode, or inside the kernel after the
  // schedule in sem_p (called from sys_wait or sys_sem_p) or in the loop of sys_wait.
  datatype Kont = User | InWait | InWaitLoop | InSem(sem: int)

  // value, and the queue of waiting processes, first come first.
  datatype Sem = Sem(value: int, queue: seq<int>)
  datatype USem = USem(sem: Sem, ref: int)

  datatype Proc = Proc(pid: int, status: Status, parent: int, childNum: int, exitCode: int, zsem: Sem,
                       usems: seq<int>, files: seq<int>, cwd: int, kont: Kont)

  datatype State = State(pcb: seq<Proc>, curr: nat, nextPid: int, sems: seq<USem>)

  function Curr(s: State): Proc
    requires s.curr < |s.pcb|
  {
    s.pcb[s.curr]
  }

  // ---- scheduling ----

  // The first READY process from `from` on, at most n entries ahead in the ring; |pcb| if none.
  function NextReady(pcb: seq<Proc>, from: nat, n: nat): (r: nat)
    requires from < |pcb|
    ensures r <= |pcb| && (r < |pcb| ==> pcb[r].status == Ready)
    decreases n
  {
    if n == 0 then |pcb|
    else if pcb[from].status == Ready then from
    else NextReady(pcb, (from + 1) % |pcb|, n - 1)
  }

  // schedule(): the next READY process after curr runs.
  function Schedule(s: State): State
    requires s.curr < |s.pcb|
  {
    var next := NextReady(s.pcb, (s.curr + 1) % |s.pcb|, |s.pcb|);
    if next < |s.pcb| then s.(pcb := s.pcb[next := s.pcb[next].(status := Running)], curr := next) else s
  }

  // Block or give up the processor, to go on at k.
  function Leave(s: State, status: Status, k: Kont): State
    requires s.curr < |s.pcb|
  {
    Schedule(s.(pcb := s.pcb[s.curr := Curr(s).(status := status, kont := k)]))
  }

  // ---- semaphores ----

  function Wake(pcb: seq<Proc>, p: int): seq<Proc> {
    if 0 <= p < |pcb| then pcb[p := pcb[p].(status := Ready)] else pcb
  }

  // sem_v: hand over to the process that has waited longest, or count up.
  function Up(m: Sem): Sem {
    if m.queue == [] then m.(value := m.value + 1) else m.(queue := m.queue[1..])
  }

  function Woken(m: Sem): int {
    if m.queue == [] then NULL else m.queue[0]
  }

  // ---- system calls ----

  function FirstUnused(pcb: seq<Proc>, i: nat): (r: nat)
    requires i <= |pcb|
    ensures i <= r <= |pcb| && (r < |pcb| ==> pcb[r].status == Unused)
      && forall k | i <= k < r :: pcb[k].status != Unused
    decreases |pcb| - i
  {
    if i == |pcb| || pcb[i].status == Unused then i else FirstUnused(pcb, i + 1)
  }

  function AddRefs(sems: seq<USem>, slots: seq<int>): (r: seq<USem>)
    ensures |r| == |sems|
  {
    seq(|sems|, u requires 0 <= u < |sems| => sems[u].(ref := sems[u].ref + multiset(slots)[u]))
  }

  function DropRefs(sems: seq<USem>, slots: seq<int>): (r: seq<USem>)
    ensures |r| == |sems|
  {
    seq(|sems|, u requires 0 <= u < |sems| => sems[u].(ref := sems[u].ref - multiset(slots)[u]))
  }

  function NoSlots(n: nat): (r: seq<int>)
    ensures |r| == n
  {
    seq(n, _ => NULL)
  }

  // proc_alloc and proc_copycurr: a copy of the running process, ready in entry a.
  function Fork(s: State): State
    requires s.curr < |s.pcb| && |s.pcb| >= 1
  {
    var a := FirstUnused(s.pcb, 1);
    if a == |s.pcb| then s
    else
      var c := Curr(s);
      var child := Proc(s.nextPid, Ready, s.curr, 0, s.pcb[a].exitCode, Sem(0, []), c.usems, c.files, c.cwd, User);
      State(s.pcb[s.curr := c.(childNum := c.childNum + 1)][a := child], s.curr, s.nextPid + 1,
        AddRefs(s.sems, c.usems))
  }

  // Every child of p loses its parent.
  function Orphan(pcb: seq<Proc>, p: int): (r: seq<Proc>)
    ensures |r| == |pcb|
  {
    seq(|pcb|, i requires 0 <= i < |pcb| => if pcb[i].parent == p then pcb[i].(parent := NULL) else pcb[i])
  }

  // The V on the parent's zombie semaphore.
  function SignalParent(pcb: seq<Proc>, q: int): seq<Proc> {
    if 0 <= q < |pcb| then
      var m := pcb[q].zsem;
      Wake(pcb[q := pcb[q].(zsem := Up(m))], Woken(m))
    else pcb
  }

  // proc_makezombie, then the schedule of sys_exit.
  function Exit(s: State, code: int): State
    requires s.curr < |s.pcb|
  {
    var c := s.curr;
    var q := Curr(s).parent;
    var pcb1 := Orphan(s.pcb[c := Curr(s).(status := Zombie, exitCode := code)], c);
    var pcb2 := SignalParent(pcb1, pcb1[c].parent);
    if c < |pcb2| then
      var pcb3 := pcb2[c := pcb2[c].(usems := NoSlots(MAX_USEM), files := NoSlots(MAX_UFILE), cwd := NULL)];
      Schedule(State(pcb3, c, s.nextPid, DropRefs(s.sems, Curr(s).usems)))
    else s
  }

  function FindZombie(pcb: seq<Proc>, p: int, i: nat): (r: nat)
    requires i <= |pcb|
    ensures i <= r <= |pcb| && (r < |pcb| ==> pcb[r].status == Zombie && pcb[r].parent == p)
    ensures forall k | i <= k < r :: !(pcb[k].status == Zombie && pcb[k].parent == p)
    decreases |pcb| - i
  {
    if i == |pcb| || (pcb[i].status == Zombie && pcb[i].parent == p) then i else FindZombie(pcb, p, i + 1)
  }

  // sys_wait after its sem_p: reap a zombie child, or yield and look again.
  function WaitEnd(s: State): State
    requires s.curr < |s.pcb|
  {
    var z := FindZombie(s.pcb, s.curr, 0);
    if z == |s.pcb| then Leave(s, Ready, InWaitLoop)
    else
      var c := Curr(s).(childNum := Curr(s).childNum - 1, kont := User);
      var pcb1 := s.pcb[s.curr := c];
      s.(pcb := pcb1[z := if pcb1[z].status == Running then pcb1[z] else pcb1[z].(status := Unused)])
  }

  // sys_wait: -1 without children, otherwise a P on the caller's own zombie semaphore first.
  function Wait(s: State): State
    requires s.curr < |s.pcb|
  {
    var c := Curr(s);
    if c.childNum == 0 then s
    else if c.zsem.value == 0 then
      Leave(s.(pcb := s.pcb[s.curr := c.(zsem := c.zsem.(queue := c.zsem.queue + [s.curr]))]), Blocked, InWait)
    else WaitEnd(s.(pcb := s.pcb[s.curr := c.(zsem := c.zsem.(value := c.zsem.value - 1))]))
  }

  function FreeSlot(slots: seq<int>, i: nat): (r: nat)
    requires i <= |slots|
    ensures i <= r <= |slots| && (r < |slots| ==> slots[r] == NULL) && forall k | i <= k < r :: slots[k] != NULL
    decreases |slots| - i
  {
    if i == |slots| || slots[i] == NULL then i else FreeSlot(slots, i + 1)
  }

  function FreeSem(sems: seq<USem>, i: nat): (r: nat)
    requires i <= |sems|
    ensures i <= r <= |sems| && (r < |sems| ==> sems[r].ref == 0) && forall k | i <= k < r :: sems[k].ref != 0
    decreases |sems| - i
  {
    if i == |sems| || sems[i].ref == 0 then i else FreeSem(sems, i + 1)
  }

  function SemOpen(s: State, value: int): State
    requires s.curr < |s.pcb|
  {
    var c := Curr(s);
    var id, u := FreeSlot(c.usems, 0), FreeSem(s.sems, 0);
    if id == |c.usems| || u == |s.sems| then s
    else s.(pcb := s.pcb[s.curr := c.(usems := c.usems[id := u])], sems := s.sems[u := USem(Sem(value, []), 1)])
  }

  // proc_getusem: the semaphore in slot id, NULL if there is none.
  function UsemOf(p: Proc, id: int): int {
    if id < 0 || id >= MAX_USEM || id >= |p.usems| then NULL else p.usems[id]
  }

  // sem_p on semaphore u by the running process.
  function PSem(s: State, u: int): State
    requires s.curr < |s.pcb|
  {
    if u < 0 || u >= |s.sems| then s
    else
      var m := s.sems[u].sem;
      if m.value == 0 then
        Leave(s.(sems := s.sems[u := s.sems[u].(sem := m.(queue := m.queue + [s.curr]))]), Blocked, InSem(u))
      else s.(sems := s.sems[u := s.sems[u].(sem := m.(value := m.value - 1))])
  }

  // sem_v on semaphore u.
  function VSem(s: State, u: int): State {
    if u < 0 || u >= |s.sems| then s
    else
      var m := s.sems[u].sem;
      s.(pcb := Wake(s.pcb, Woken(m)), sems := s.sems[u := s.sems[u].(sem := Up(m))])
  }

  function SemP(s: State, id: int): State
    requires s.curr < |s.pcb|
  {
    PSem(s, UsemOf(Curr(s), id))
  }

  function SemV(s: State, id: int): State
    requires s.curr < |s.pcb|
  {
    VSem(s, UsemOf(Curr(s), id))
  }

  function SemClose(s: State, id: int): State
    requires s.curr < |s.pcb|
  {
    var u := UsemOf(Curr(s), id);
    if u < 0 || u >= |s.sems| then s
    else s.(pcb := s.pcb[s.curr := Curr(s).(usems := Curr(s).usems[id := NULL])],
            sems := s.sems[u := s.sems[u].(ref := s.sems[u].ref - 1)])
  }

  // Back from the schedule inside the kernel.
  function Resume(s: State): State
    requires s.curr < |s.pcb|
  {
    match Curr(s).kont
    case User => s
    case InWait => WaitEnd(s)
    case InWaitLoop => WaitEnd(s)
    case InSem(_) => s.(pcb := s.pcb[s.curr := Curr(s).(kont := User)])
  }

  // ---- steps ----

  datatype Event =
    | Yield                 // the timer, or sys_yield
    | ForkCall | ExitCall(code: int) | WaitCall
    | SemOpenCall(value: int) | SemPCall(id: int) | SemVCall(id: int) | SemCloseCall(id: int)
    | GetcharCall           // the P of getchar
    | KeyCall               // a V of the serial interrupt
    | FilesCall(files: seq<int>, cwd: int)    // open, close, dup, chdir: own descriptors and directory only
    | ResumeCall

  // A process inside the kernel can only go on there; entry 0 idles and makes no calls, but is interrupted.
  predicate Enabled(s: State, e: Event) {
    && s.curr < |s.pcb|
    && (e.ResumeCall? <==> Curr(s).kont != User)
    && (s.curr == 0 ==> e.Yield? || e.KeyCall?)
    && (e.FilesCall? ==> |e.files| == MAX_UFILE)
  }

  function Step(s: State, e: Event): State
    requires Enabled(s, e)
  {
    match e
    case Yield => Leave(s, Ready, User)
    case ForkCall => Fork(s)
    case ExitCall(code) => Exit(s, code)
    case WaitCall => Wait(s)
    case SemOpenCall(v) => SemOpen(s, v)
    case SemPCall(id) => SemP(s, id)
    case SemVCall(id) => SemV(s, id)
    case SemCloseCall(id) => SemClose(s, id)
    case GetcharCall => PSem(s, SERIAL)
    case KeyCall => VSem(s, SERIAL)
    case FilesCall(files, cwd) => s.(pcb := s.pcb[s.curr := Curr(s).(files := files, cwd := cwd)])
    case ResumeCall => Resume(s)
  }
}

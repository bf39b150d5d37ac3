// What a process gets from the calls on semaphores and descriptors: the numbers they return, and what
// those numbers are good for afterwards.
module CallLaws {
  import opened Options
  import opened Bytes
  import opened Inodes
  import opened Files
  import opened Procs
  import opened ProcInvariant
  import opened ProcSteps
  import opened OpenFiles
  import opened SystemCalls

  // ---- semaphores ----

  // sem_open fills a slot of the caller that was empty with a semaphore nobody had, which has this value;
  // without such a slot or such a semaphore nothing changes.
  lemma SemOpenMeans(s: State, value: int) returns (id: nat, u: nat)
    requires Inv(s)
    ensures var t, c := SemOpen(s, value), Curr(s);
      if (forall k | 0 <= k < MAX_USEM :: c.usems[k] != NULL) || (forall k | 0 <= k < SEM_NUM :: s.sems[k].ref != 0)
      then t == s
      else
        && id < MAX_USEM && u < SEM_NUM && c.usems[id] == NULL && s.sems[u].ref == 0
        && t == s.(pcb := s.pcb[s.curr := c.(usems := c.usems[id := u])], sems := s.sems[u := USem(Sem(value, []), 1)])
        && UsemOf(Curr(t), id) == u
    ensures SemOpen(s, value) != s ==>
      id == FreeSlot(Curr(s).usems, 0) < MAX_USEM && FreeSem(s.sems, 0) < SEM_NUM
  {
    hide Core, Shape;
    CurrFacts(s);
    id, u := FreeSlot(Curr(s).usems, 0), FreeSem(s.sems, 0);
  }

  // A P that does not have to wait is taken back by a V: nobody notices.
  lemma PThenV(s: State, id: int)
    requires Inv(s) && s.curr != 0 && Curr(s).kont == User && 0 <= UsemOf(Curr(s), id) < |s.sems|
    requires s.sems[UsemOf(Curr(s), id)].sem.value != 0 && s.sems[UsemOf(Curr(s), id)].sem.queue == []
    ensures SemP(s, id).curr == s.curr && SemP(s, id).pcb == s.pcb && SemV(SemP(s, id), id) == s
  {
    hide Core, Shape;
    CurrFacts(s);
    var u := UsemOf(Curr(s), id);
    var t := SemP(s, id);
    var m := s.sems[u].sem;
    assert t == s.(sems := s.sems[u := s.sems[u].(sem := m.(value := m.value - 1))]);
    assert SemV(t, id).sems == s.sems;
  }

  // After sem_close the slot is empty, and one reference to the semaphore is gone; its value stays.
  lemma SemCloseMeans(s: State, id: int, other: int)
    requires Inv(s)
    ensures UsemOf(Curr(s), id) == NULL ==> SemClose(s, id) == s
    ensures SemClose(s, id).curr == s.curr && |SemClose(s, id).sems| == |s.sems| && |SemClose(s, id).pcb| == |s.pcb|
    ensures UsemOf(Curr(SemClose(s, id)), other) == if other == id then NULL else UsemOf(Curr(s), other)
    ensures forall u: nat | u < |s.sems| ::
      && SemClose(s, id).sems[u].sem == s.sems[u].sem
      && SemClose(s, id).sems[u].ref == s.sems[u].ref - if u == UsemOf(Curr(s), id) then 1 else 0
  {
    hide Core, Shape;
    CurrFacts(s);
    assert 0 <= id < MAX_USEM ==> SlotOk(Curr(s).usems[id], |s.sems|);
  }

  // ---- descriptors ----

  // The descriptor that open returns was free and leads to the open file; all others lead where they led.
  lemma OpenGives(s: State, s': State, files: seq<OpenFile>, files': seq<OpenFile>, f: seq<File>, f': seq<File>,
      path: seq<byte>, here: nat, mode: Mode, t': seq<Inode>, got: Option<nat>, r: int, fd: int)
    requires OpenDone(s, s', files, files', f, f', path, here, mode, t', got, r) && |Curr(s).files| == MAX_UFILE
    ensures r == -1 ==> s' == s
    ensures r != -1 ==>
      && 0 <= r < MAX_UFILE && Curr(s).files[r] == NULL && s'.curr == s.curr < |s'.pcb| && got.Some?
      && FileOf(Curr(s'), fd) == if fd == r then got.value else FileOf(Curr(s), fd)
    ensures r == -1 ==>
      (forall k | 0 <= k < MAX_UFILE :: Curr(s).files[k] != NULL) || (forall k | 0 <= k < |files| :: files[k].ref != 0)
      || Opening(f, f', path, here, mode, t', None)
  {
    hide Opening;
    if r == -1 && got.Some? {
      assert FreeSlot(Curr(s).files, 0) == MAX_UFILE || AllTaken(files);
    }
  }

  // Descriptor fd leads to open file k: so it is after dup, where k is what the old one leads to, and
  // after close, where k is none.
  lemma RefiledMeans(s: State, fd: int, k: int, other: int)
    requires s.curr < |s.pcb| && 0 <= fd < |Curr(s).files| == MAX_UFILE
    ensures Refiled(s, fd, k).curr == s.curr && |Refiled(s, fd, k).pcb| == |s.pcb|
    ensures FileOf(Curr(Refiled(s, fd, k)), other) == if other == fd then k else FileOf(Curr(s), other)
    ensures forall p: nat | p < |s.pcb| && p != s.curr :: Refiled(s, fd, k).pcb[p] == s.pcb[p]
    ensures other < 0 || other >= MAX_UFILE ==> FileOf(Curr(s), other) == -1
  {}
}

// user/src/phase4/producer.c: any number of producers and consumers over three semaphores of the
// kernel, which hand a V directly to the process that waits longest.
module Producers {
  import opened Procs

  const BUF_SIZE := 32

  // Where a process stands: before its first P; queued there; past it; queued for mutex; inside the
  // critical section; behind V(mutex). A process that a V has woken is past its P already.
  datatype Pc = Begin | WaitFirst | HasFirst | WaitMutex | Inside | Leaving

  // A producer does P(empty) P(mutex) put V(mutex) V(full), a consumer P(full) P(mutex) take V(mutex) V(empty).
  datatype Worker = Worker(producer: bool, pc: Pc)

  datatype Stage = Stage(ws: seq<Worker>, empty: Sem, full: Sem, mutex: Sem, produced: nat, consumed: nat)

  function Init(roles: seq<bool>): Stage {
    Stage(seq(|roles|, i requires 0 <= i < |roles| => Worker(roles[i], Begin)), Sem(BUF_SIZE, []), Sem(0, []),
      Sem(1, []), 0, 0)
  }

  function First(s: Stage, producer: bool): Sem { if producer then s.empty else s.full }

  function WithFirst(s: Stage, producer: bool, m: Sem): Stage {
    if producer then s.(empty := m) else s.(full := m)
  }

  function Goto(ws: seq<Worker>, i: int, pc: Pc): seq<Worker> {
    if 0 <= i < |ws| then ws[i := ws[i].(pc := pc)] else ws
  }

  predicate Enabled(s: Stage, i: nat) {
    i < |s.ws| && s.ws[i].pc != WaitFirst && s.ws[i].pc != WaitMutex
  }

  // One semaphore operation of process i, with what it does before.
  function Step(s: Stage, i: nat): Stage
    requires Enabled(s, i)
  {
    var w := s.ws[i];
    match w.pc
    case Begin =>
      var m := First(s, w.producer);
      if m.value == 0 then WithFirst(s, w.producer, m.(queue := m.queue + [i])).(ws := Goto(s.ws, i, WaitFirst))
      else WithFirst(s, w.producer, m.(value := m.value - 1)).(ws := Goto(s.ws, i, HasFirst))
    case HasFirst =>
      var m := s.mutex;
      if m.value == 0 then s.(mutex := m.(queue := m.queue + [i]), ws := Goto(s.ws, i, WaitMutex))
      else s.(mutex := m.(value := m.value - 1), ws := Goto(s.ws, i, Inside))
    case Inside =>
      var t := if w.producer then s.(produced := s.produced + 1) else s.(consumed := s.consumed + 1);
      t.(mutex := Up(s.mutex), ws := Goto(Goto(s.ws, i, Leaving), Woken(s.mutex), Inside))
    case _ =>
      var m := First(s, !w.producer);
      WithFirst(s, !w.producer, Up(m)).(ws := Goto(Goto(s.ws, i, Begin), Woken(m), HasFirst))
  }

  // ---- the invariant ----

  function Num(ws: seq<Worker>, producer: bool, pc: Pc): nat { multiset(ws)[Worker(producer, pc)] }

  // The processes of the given kind that are past their first P and not yet through with their second V.
  function Busy(ws: seq<Worker>, producer: bool): nat {
    Num(ws, producer, HasFirst) + Num(ws, producer, WaitMutex) + Num(ws, producer, Inside) + Num(ws, producer, Leaving)
  }

  // A queue holds exactly the processes that are in the given state, each once, and is empty
  // unless the value is 0.
  ghost predicate Queue(ws: seq<Worker>, m: Sem, pc: Pc, producers: bool, consumers: bool) {
    && m.value >= 0 && (m.queue != [] ==> m.value == 0)
    && (forall k: nat | k < |m.queue| ::
      0 <= m.queue[k] < |ws| && ws[m.queue[k]].pc == pc && (if ws[m.queue[k]].producer then producers else consumers))
    && (forall k: nat, l: nat | k < l < |m.queue| :: m.queue[k] != m.queue[l])
    && (forall i: nat | i < |ws| && ws[i].pc == pc && (if ws[i].producer then producers else consumers) :: i in m.queue)
  }

  ghost predicate Inv(s: Stage) {
    && Queue(s.ws, s.empty, WaitFirst, true, false)
    && Queue(s.ws, s.full, WaitFirst, false, true)
    && Queue(s.ws, s.mutex, WaitMutex, true, true)
    && s.mutex.value + Num(s.ws, true, Inside) + Num(s.ws, false, Inside) == 1
    && s.empty.value + Busy(s.ws, true) + s.full.value + Busy(s.ws, false) == BUF_SIZE
    && s.produced + Num(s.ws, false, Leaving)
      == s.consumed + s.full.value + Num(s.ws, true, Leaving) + Busy(s.ws, false)
  }

  lemma NumGoto(ws: seq<Worker>, i: int, pc: Pc, producer: bool, q: Pc)
    ensures 0 <= i < |ws| ==>
      Num(Goto(ws, i, pc), producer, q) + (if ws[i] == Worker(producer, q) then 1 else 0)
        == Num(ws, producer, q) + (if ws[i].(pc := pc) == Worker(producer, q) then 1 else 0)
    ensures 0 <= i < |ws| && ws[i] == Worker(producer, q) ==> Num(ws, producer, q) >= 1
  {
    if 0 <= i < |ws| {
      assert ws[i] in multiset(ws);
      assert multiset(Goto(ws, i, pc)) == multiset(ws) - multiset{ws[i]} + multiset{ws[i].(pc := pc)};
    }
  }

  // All the counts at once.
  lemma Counts(ws: seq<Worker>, i: int, pc: Pc)
    requires 0 <= i < |ws|
    ensures forall producer: bool, q: Pc ::
      Num(Goto(ws, i, pc), producer, q) + (if ws[i] == Worker(producer, q) then 1 else 0)
        == Num(ws, producer, q) + (if ws[i].(pc := pc) == Worker(producer, q) then 1 else 0)
    ensures Num(ws, ws[i].producer, ws[i].pc) >= 1
  {
    forall producer: bool, q: Pc
      ensures Num(Goto(ws, i, pc), producer, q) + (if ws[i] == Worker(producer, q) then 1 else 0)
        == Num(ws, producer, q) + (if ws[i].(pc := pc) == Worker(producer, q) then 1 else 0)
    {
      NumGoto(ws, i, pc, producer, q);
    }
    NumGoto(ws, i, pc, ws[i].producer, ws[i].pc);
  }

  // ---- queues ----

  // A process joins the queue.
  lemma QueueJoin(ws: seq<Worker>, m: Sem, i: nat, pc: Pc, producers: bool, consumers: bool)
    requires Queue(ws, m, pc, producers, consumers) && m.value == 0 && i < |ws| && ws[i].pc != pc
      && (if ws[i].producer then producers else consumers)
    ensures Queue(Goto(ws, i, pc), m.(queue := m.queue + [i]), pc, producers, consumers)
  {}

  // A process moves between states this queue is not about.
  lemma QueueOther(ws: seq<Worker>, m: Sem, i: nat, to: Pc, pc: Pc, producers: bool, consumers: bool)
    requires Queue(ws, m, pc, producers, consumers) && i < |ws|
    requires (ws[i].pc != pc && to != pc) || (if ws[i].producer then !producers else !consumers)
    ensures Queue(Goto(ws, i, to), m, pc, producers, consumers)
  {}

  lemma QueueTake(ws: seq<Worker>, m: Sem, pc: Pc, producers: bool, consumers: bool)
    requires Queue(ws, m, pc, producers, consumers) && m.value > 0
    ensures Queue(ws, m.(value := m.value - 1), pc, producers, consumers)
  {}

  // V: the first in the queue goes on, or the value is raised.
  lemma QueueUp(ws: seq<Worker>, m: Sem, to: Pc, pc: Pc, producers: bool, consumers: bool)
    requires Queue(ws, m, pc, producers, consumers) && to != pc
    ensures Queue(Goto(ws, Woken(m), to), Up(m), pc, producers, consumers)
    ensures m.queue != [] ==>
      0 <= Woken(m) < |ws| && ws[Woken(m)].pc == pc && (if ws[Woken(m)].producer then producers else consumers)
  {
    if m.queue != [] {
      assert m.queue[1..] + [] == m.queue[1..];
      forall i: nat | i < |ws| && i != m.queue[0] && ws[i].pc == pc
        && (if ws[i].producer then producers else consumers) ensures i in m.queue[1..] {
        assert i in m.queue;
        var k: nat :| k < |m.queue| && m.queue[k] == i;
        assert m.queue[1..][k - 1] == i;
      }
    }
  }

  // ---- every step keeps it ----

  lemma BeginInv(s: Stage, i: nat)
    requires Inv(s) && Enabled(s, i) && s.ws[i].pc == Begin
    ensures Inv(Step(s, i))
  {
    hide Queue, Num;
    var p := s.ws[i].producer;
    var m := First(s, p);
    var to := if m.value == 0 then WaitFirst else HasFirst;
    Counts(s.ws, i, to);
    if m.value == 0 {
      QueueJoin(s.ws, m, i, WaitFirst, p, !p);
    } else {
      FirstValue(s, p);
      QueueTake(s.ws, m, WaitFirst, p, !p);
      QueueOther(s.ws, m.(value := m.value - 1), i, to, WaitFirst, p, !p);
    }
    QueueOther(s.ws, First(s, !p), i, to, WaitFirst, !p, p);
    QueueOther(s.ws, s.mutex, i, to, WaitMutex, true, true);
  }

  lemma FirstValue(s: Stage, p: bool)
    requires Inv(s)
    ensures First(s, p).value >= 0 && s.mutex.value >= 0
  {}

  lemma HasFirstInv(s: Stage, i: nat)
    requires Inv(s) && Enabled(s, i) && s.ws[i].pc == HasFirst
    ensures Inv(Step(s, i))
  {
    hide Queue, Num;
    FirstValue(s, true);
    var m := s.mutex;
    var to := if m.value == 0 then WaitMutex else Inside;
    Counts(s.ws, i, to);
    if m.value == 0 {
      QueueJoin(s.ws, m, i, WaitMutex, true, true);
    } else {
      QueueTake(s.ws, m, WaitMutex, true, true);
      QueueOther(s.ws, m.(value := m.value - 1), i, to, WaitMutex, true, true);
    }
    QueueOther(s.ws, s.empty, i, to, WaitFirst, true, false);
    QueueOther(s.ws, s.full, i, to, WaitFirst, false, true);
  }

  lemma InsideInv(s: Stage, i: nat)
    requires Inv(s) && Enabled(s, i) && s.ws[i].pc == Inside
    ensures Inv(Step(s, i))
  {
    hide Queue, Num;
    var m, ws1 := s.mutex, Goto(s.ws, i, Leaving);
    Counts(s.ws, i, Leaving);
    QueueOther(s.ws, m, i, Leaving, WaitMutex, true, true);
    QueueOther(s.ws, s.empty, i, Leaving, WaitFirst, true, false);
    QueueOther(s.ws, s.full, i, Leaving, WaitFirst, false, true);
    QueueUp(ws1, m, Inside, WaitMutex, true, true);
    if m.queue != [] {
      var w := Woken(m);
      Counts(ws1, w, Inside);
      QueueOther(ws1, s.empty, w, Inside, WaitFirst, true, false);
      QueueOther(ws1, s.full, w, Inside, WaitFirst, false, true);
    }
  }

  lemma LeavingInv(s: Stage, i: nat)
    requires Inv(s) && Enabled(s, i) && s.ws[i].pc == Leaving
    ensures Inv(Step(s, i))
  {
    hide Queue, Num;
    var p := s.ws[i].producer;
    var m, ws1 := First(s, !p), Goto(s.ws, i, Begin);
    Counts(s.ws, i, Begin);
    QueueOther(s.ws, s.mutex, i, Begin, WaitMutex, true, true);
    QueueOther(s.ws, s.empty, i, Begin, WaitFirst, true, false);
    QueueOther(s.ws, s.full, i, Begin, WaitFirst, false, true);
    QueueUp(ws1, m, HasFirst, WaitFirst, !p, p);
    if m.queue != [] {
      var w := Woken(m);
      Counts(ws1, w, HasFirst);
      QueueOther(ws1, First(s, p), w, HasFirst, WaitFirst, p, !p);
      QueueOther(ws1, s.mutex, w, HasFirst, WaitMutex, true, true);
    }
  }

  lemma StepInv(s: Stage, i: nat)
    requires Inv(s) && Enabled(s, i)
    ensures Inv(Step(s, i))
  {
    hide Inv, Step;
    match s.ws[i].pc
    case Begin => BeginInv(s, i);
    case HasFirst => HasFirstInv(s, i);
    case Inside => InsideInv(s, i);
    case Leaving => LeavingInv(s, i);
  }

  lemma InitInv(roles: seq<bool>)
    ensures Inv(Init(roles))
  {
    var ws := Init(roles).ws;
    forall producer: bool, q: Pc | q != Begin ensures Num(ws, producer, q) == 0 {
      assert Worker(producer, q) !in ws;
    }
    hide Num;
  }

  // ---- what follows ----

  // Never two processes in the critical section; never more than 32 items, never fewer than none.
  lemma Safe(s: Stage)
    requires Inv(s)
    ensures Num(s.ws, true, Inside) + Num(s.ws, false, Inside) <= 1
    ensures 0 <= s.produced - s.consumed <= BUF_SIZE
    ensures s.empty.value + s.full.value + Busy(s.ws, true) + Busy(s.ws, false) == BUF_SIZE
  {
    hide Num;
  }

  // Somebody can always go on, if there is a process of each kind.
  lemma NoDeadlock(s: Stage)
    requires Inv(s) && (exists i: nat :: i < |s.ws| && s.ws[i].producer) && exists i: nat ::
      i < |s.ws| && !s.ws[i].producer
    ensures exists i: nat :: Enabled(s, i)
  {
    if forall i: nat | i < |s.ws| :: s.ws[i].pc == WaitFirst || s.ws[i].pc == WaitMutex {
      forall producer: bool, q: Pc | q != WaitFirst && q != WaitMutex ensures Num(s.ws, producer, q) == 0 {
        assert Worker(producer, q) !in s.ws;
      }
      var p: nat :| p < |s.ws| && s.ws[p].producer;
      var c: nat :| c < |s.ws| && !s.ws[c].producer;
      assert s.mutex.value == 1;
      forall i: nat | i < |s.ws| ensures s.ws[i].pc
        == WaitFirst { assert s.ws[i].pc == WaitMutex ==> i in s.mutex.queue; }
    } else {
      var i: nat :| i < |s.ws| && s.ws[i].pc != WaitFirst && s.ws[i].pc != WaitMutex;
      assert Enabled(s, i);
    }
  }

  ghost predicate Run(s: Stage, moves: seq<nat>, t: Stage)
    decreases |moves|
  {
    if moves == [] then t == s else Enabled(s, moves[0]) && Run(Step(s, moves[0]), moves[1..], t)
  }

  lemma {:induction false} RunInv(s: Stage, moves: seq<nat>, t: Stage)
    requires Inv(s) && Run(s, moves, t)
    ensures Inv(t) && |t.ws| == |s.ws| && forall i | 0 <= i < |s.ws| :: t.ws[i].producer == s.ws[i].producer
    decreases |moves|
  {
    if moves != [] {
      hide Inv;
      StepInv(s, moves[0]);
      SameRoles(s, moves[0]);
      RunInv(Step(s, moves[0]), moves[1..], t);
    }
  }

  lemma SameRoles(s: Stage, i: nat)
    requires Enabled(s, i)
    ensures |Step(s, i).ws| == |s.ws| && forall k | 0 <= k < |s.ws| :: Step(s, i).ws[k].producer == s.ws[k].producer
  {}

  // Whatever the numbers of producers and consumers, and however they are scheduled.
  lemma EveryRun(roles: seq<bool>, moves: seq<nat>, t: Stage)
    requires true in roles && false in roles && Run(Init(roles), moves, t)
    ensures 0 <= t.produced - t.consumed <= BUF_SIZE
    ensures Num(t.ws, true, Inside) + Num(t.ws, false, Inside) <= 1
    ensures exists i: nat :: Enabled(t, i)
  {
    InitInv(roles);
    RunInv(Init(roles), moves, t);
    Safe(t);
    hide Inv;
    var p: nat :| p < |roles| && roles[p];
    var c: nat :| c < |roles| && !roles[c];
    assert Init(roles).ws[p].producer && !Init(roles).ws[c].producer;
    NoDeadlock(t);
  }
}

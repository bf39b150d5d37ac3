// kernel/src/serial.c: the line discipline of the serial console, and the readers it keeps waiting.
module Serial {

  const SIZE := 256
  const NL := '\n'
  const NUL := '\0'
  const ESC: char := 0x1b as char
  const BS: char := 8 as char
  const DEL: char := 0x7f as char

  // ---- what the user has typed, as a text editor for one line sees it ----

  // The characters of the completed lines, and the line under way.
  datatype Typed = Typed(done: string, cur: string)

  predicate Printable(ch: char) { ' ' <= ch < DEL }

  function Key(t: Typed, ch: char): Typed {
    if ch == BS || ch == DEL then (if t.cur == [] then t else t.(cur := t.cur[..|t.cur| - 1]))
    else if ch == '\r' || ch == NL then Typed(t.done + t.cur + [NL], [])
    else if Printable(ch) then t.(cur := t.cur + [ch])
    else t
  }

  // A burst of input: an escape swallows the rest of it.
  function Burst(t: Typed, keys: string): Typed
    decreases |keys|
  {
    if keys == [] || keys[0] == ESC then t else Burst(Key(t, keys[0]), keys[1..])
  }

  // Completed lines never change again.
  lemma {:induction false} BurstKeepsDone(t: Typed, keys: string)
    ensures t.done <= Burst(t, keys).done
    decreases |keys|
  {
    if keys != [] && keys[0] != ESC { BurstKeepsDone(Key(t, keys[0]), keys[1..]); }
  }

  // ---- the semaphore the readers wait on ----

  // Its value, the processes queued on it, and those woken that have not gone on yet.
  datatype Line = Line(value: nat, waiting: seq<int>, granted: seq<int>)

  // One V: it wakes the process that has waited longest, or counts up.
  function Raised(l: Line): Line {
    if l.waiting == [] then l.(value := l.value + 1)
    else Line(l.value, l.waiting[1..], l.granted + [l.waiting[0]])
  }

  function Vs(l: Line, n: nat): Line { if n == 0 then l else Raised(Vs(l, n - 1)) }

  lemma {:induction false} VsMore(l: Line, m: nat, n: nat)
    ensures Vs(Vs(l, m), n) == Vs(l, m + n)
  {
    if n > 0 { VsMore(l, m, n - 1); }
  }

  // From l to r, n Vs: each counts once, and processes are woken in the order in which they came.
  ghost predicate Woke(l: Line, r: Line, n: nat) {
    && r.value + |r.granted| == l.value + |l.granted| + n && (r.waiting != [] ==> r.value == 0)
    && |r.waiting| <= |l.waiting|
    && var k := |l.waiting| - |r.waiting|;
      r.waiting == l.waiting[k..] && r.granted == l.granted + l.waiting[..k]
  }

  lemma WokeOne(l: Line, q: Line, n: nat)
    requires Woke(l, q, n)
    ensures Woke(l, Raised(q), n + 1)
  {
    var w, k := l.waiting, |l.waiting| - |q.waiting|;
    if q.waiting != [] {
      assert w[k..][1..] == w[k + 1..] && l.granted + w[..k] + [w[k..][0]] == l.granted + w[..k + 1];
    }
  }

  lemma {:induction false} VsWake(l: Line, n: nat)
    requires l.waiting != [] ==> l.value == 0
    ensures Woke(l, Vs(l, n), n)
  {
    if n == 0 {
      assert l.waiting[0..] == l.waiting && l.granted + l.waiting[..0] == l.granted;
    } else {
      hide Woke, Raised;
      VsWake(l, n - 1);
      WokeOne(l, Vs(l, n - 1), n - 1);
    }
  }

  lemma VsCount(l: Line, n: nat)
    requires l.waiting != [] ==> l.value == 0
    ensures var r := Vs(l, n);
      r.value + |r.granted| == l.value + |l.granted| + n && (r.waiting != [] ==> r.value == 0)
  {
    VsWake(l, n);
  }

  // A process that was woken goes on: it is off the list.
  function Without(q: seq<int>, p: int): seq<int> {
    if q == [] then [] else if q[0] == p then q[1..] else [q[0]] + Without(q[1..], p)
  }

  lemma {:induction false} WithoutOne(q: seq<int>, p: int)
    requires p in q
    ensures multiset(q) == multiset(Without(q, p)) + multiset{p} && |Without(q, p)| == |q| - 1
  {
    assert q == [q[0]] + q[1..];
    if q[0] != p { WithoutOne(q[1..], p); }
  }

  datatype Took = Char(ch: char) | Waiting

  class Port {
    const buffer: array<char>
    var head: nat
    var tail: nat
    var clapboard: nat
    // serial_sem: its value, the processes queued on it, and those woken that have not gone on yet
    var value: nat
    var waiting: seq<int>
    var granted: seq<int>
    // what was typed, what getchar returned, and whether the ring has ever held more than it can
    ghost var typed: Typed
    ghost var given: string
    ghost var intact: bool

    constructor ()
      ensures Valid() && Sem() == Line(0, [], []) && typed == Typed([], []) && given == [] && intact && fresh(buffer)
    {
      buffer := new char[SIZE](_ => NUL);
      head, tail, clapboard := 0, 0, 0;
      value, waiting, granted := 0, [], [];
      typed, given, intact := Typed([], []), [], true;
    }

    // The ring holds what was typed and not yet fetched.
    ghost predicate Ring()
      reads this, buffer
    {
      && buffer.Length == SIZE && head <= clapboard <= tail
      && |typed.done| == clapboard && |typed.cur| == tail - clapboard
      && (forall i | 0 <= i < tail :: buffer[i % SIZE] != NUL)
      && (intact ==> tail - head <= SIZE)
      && (intact ==> forall i | head <= i < tail :: buffer[i % SIZE] == (typed.done + typed.cur)[i])
    }

    // Every completed character not yet fetched is announced exactly once.
    ghost predicate Valid()
      reads this, buffer
    {
      && Ring() && value + |granted| == clapboard - head && (waiting != [] ==> value == 0)
      && |given| == head && (intact ==> given == typed.done[..head])
    }

    function Sem(): Line
      reads this
    {
      Line(value, waiting, granted)
    }

    // The V on serial_sem.
    method SemV()
      modifies `value, `waiting, `granted
      ensures Sem() == Raised(old(Sem()))
    {
      if waiting != [] {
        granted := granted + [waiting[0]];
        waiting := waiting[1..];
      } else {
        value := value + 1;
      }
    }

    method PushBack(ch: char)
      requires Valid() && ch != NUL && (ch == NL || Printable(ch))
      modifies this, buffer
      ensures Valid() && typed == Key(old(typed), ch) && given == old(given) && head == old(head)
      ensures intact == (old(intact) && tail - head <= SIZE)
      ensures old(clapboard) <= clapboard && Sem() == Vs(old(Sem()), clapboard - old(clapboard))
    {
      hide Vs;
      VsNone(Sem());
      ghost var was := typed.done + typed.cur;
      buffer[tail % SIZE] := ch;
      tail := tail + 1;
      intact := intact && tail - head <= SIZE;
      RingKept(old(buffer[..]), buffer[..], head, tail, was, ch);
      typed := typed.(cur := typed.cur + [ch]);
      assert typed.done + typed.cur == was + [ch];
      if ch == NL { Complete(); }
    }

    // The line under way is complete.
    method Complete()
      requires Valid()
      modifies `clapboard, `typed, `value, `waiting, `granted
      ensures Valid() && typed == Typed(old(typed).done + old(typed).cur, [])
      ensures clapboard == tail && Sem() == Vs(old(Sem()), clapboard - old(clapboard))
    {
      hide Vs;
      VsCount(Sem(), tail - clapboard);
      SemVs(tail - clapboard);
      clapboard := tail;
      typed := Typed(typed.done + typed.cur, []);
      assert typed.done + typed.cur == typed.done;
    }

    // One V for every character of the line just completed.
    method SemVs(n: nat)
      modifies `value, `waiting, `granted
      ensures Sem() == Vs(old(Sem()), n)
    {
      for i := 0 to n
        invariant Sem() == Vs(old(Sem()), i)
      {
        SemV();
      }
    }

    method PopBack() returns (ch: char)
      requires Valid()
      modifies this`tail, this`typed
      ensures Valid() && typed == Key(old(typed), BS) && (ch != NUL <==> old(typed).cur != [])
      ensures old(intact) && ch != NUL ==> ch == old(typed).cur[|old(typed).cur| - 1]
    {
      if tail > clapboard {
        tail := tail - 1;
        ghost var cur := typed.cur;
        typed := typed.(cur := cur[..|cur| - 1]);
        return buffer[tail % SIZE];
      }
      return NUL;
    }

    method PopFront() returns (ch: char)
      requires Ring()
      modifies this`head
      ensures Ring() && head == (if old(clapboard > head) then old(head) + 1 else old(head))
      ensures ch != NUL <==> old(clapboard > head)
      ensures intact && ch != NUL ==> ch == typed.done[old(head)]
    {
      if clapboard > head {
        head := head + 1;
        return buffer[(head - 1) % SIZE];
      }
      return NUL;
    }

    // The characters that have arrived, in order.
    method SerialHandle(keys: string)
      requires Valid()
      modifies this, buffer
      ensures Valid() && typed == Burst(old(typed), keys) && given == old(given) && head == old(head)
      ensures old(clapboard) <= clapboard && Sem() == Vs(old(Sem()), clapboard - old(clapboard))
      ensures intact ==> old(intact)
    {
      hide Vs, Valid, Key;
      var rest := keys;
      VsNone(Sem());
      while rest != []
        invariant Valid() && Burst(typed, rest) == Burst(old(typed), keys) && given == old(given) && head == old(head)
        invariant old(clapboard) <= clapboard && Sem() == Vs(old(Sem()), clapboard - old(clapboard))
        invariant intact ==> old(intact)
        decreases |rest|
      {
        var ch := rest[0];
        rest := rest[1..];
        if ch == ESC {
          rest := [];
        } else {
          ghost var c := clapboard;
          HandleKey(ch);
          VsMore(old(Sem()), c - old(clapboard), clapboard - c);
        }
      }
    }

    // The switch of serial_handle.
    method HandleKey(ch: char)
      requires Valid() && ch != ESC
      modifies this, buffer
      ensures Valid() && typed == Key(old(typed), ch) && given == old(given) && head == old(head)
      ensures old(clapboard) <= clapboard && Sem() == Vs(old(Sem()), clapboard - old(clapboard))
      ensures intact ==> old(intact)
    {
      VsNone(Sem());
      if ch == NUL {
      } else if ch == BS || ch == DEL {
        var gone := PopBack();
      } else {
        var c := if ch == '\r' then NL else ch;
        if c == NL || (' ' <= c && c < DEL) { PushBack(c); }
      }
    }

    // getchar by process p, up to where it may have to wait.
    method Getchar(p: int) returns (r: Took)
      requires Valid()
      modifies this
      ensures Valid() && typed == old(typed) && intact == old(intact) && clapboard == old(clapboard)
      ensures r == Waiting <==> old(value) == 0
      ensures r == Waiting ==> Sem() == old(Sem()).(waiting := old(waiting) + [p]) && given == old(given)
      ensures r.Char? ==> Sem() == old(Sem()).(value := old(value) - 1) && given == old(given) + [r.ch] && r.ch != NUL
    {
      if value == 0 {
        waiting := waiting + [p];
        return Waiting;
      }
      value := value - 1;
      var ch := PopFront();
      assert ch != NUL;    // the assertion in getchar
      given := given + [ch];
      assert intact ==> given == typed.done[..head];
      return Char(ch);
    }

    // Process p, which was woken, goes on behind its sem_p.
    method GetcharResume(p: int) returns (ch: char)
      requires Valid() && p in granted
      modifies this
      ensures Valid() && typed == old(typed) && intact == old(intact) && clapboard == old(clapboard)
      ensures Sem() == old(Sem()).(granted := Without(old(granted), p))
      ensures given == old(given) + [ch] && ch != NUL
    {
      WithoutOne(granted, p);
      granted := Without(granted, p);
      ch := PopFront();
      assert ch != NUL;
      given := given + [ch];
      assert intact ==> given == typed.done[..head];
    }

    // Nobody sleeps while a completed character waits to be fetched by no one.
    lemma NoLostWakeup()
      requires Valid()
      ensures waiting != [] ==> clapboard - head == |granted|
      ensures clapboard > head ==> value > 0 || granted != []
    {}

    // As long as the ring has not been overrun, readers get the edited lines, in order and whole.
    lemma Delivered()
      requires Valid() && intact
      ensures given <= typed.done
    {}
  }

  // Writing the next cell of the ring leaves the others that are in use alone, if they fit.
  lemma RingKept(a: seq<char>, b: seq<char>, head: nat, tail: nat, was: string, ch: char)
    requires |a| == |b| == SIZE && 1 <= tail && head <= tail - 1 && |was| == tail - 1 && b == a[(tail - 1) % SIZE := ch]
    ensures tail - head <= SIZE && (forall i | head <= i < tail - 1 :: a[i % SIZE] == was[i]) ==>
      forall i | head <= i < tail :: b[i % SIZE] == (was + [ch])[i]
    ensures ch != NUL && (forall i | 0 <= i < tail - 1 :: a[i % SIZE] != NUL) ==>
      forall i | 0 <= i < tail :: b[i % SIZE] != NUL
  {
    forall i | 0 <= i < tail - 1 && tail - 1 - i < SIZE ensures i % SIZE != (tail - 1) % SIZE {}
  }

  lemma VsNone(l: Line)
    ensures Vs(l, 0) == l
  {}
}

// kernel/klib/list.c: circular doubly linked lists whose nodes all come from one pool.
module Lists {

  const LIST_NUM := 256
  const FREE := 0

  // Cells 0..255 are the pool; behind them one head for each list, the free list first.
  function HeadCell(h: nat): nat { LIST_NUM + h }

  // The cells one meets going along prev from the head x and back to it.
  function Ring(x: nat, l: seq<nat>): (r: seq<nat>)
    ensures |r| == |l| + 2
  {
    [x] + l + [x]
  }

  // The i-th link of the ring, both ways.
  ghost predicate Link(prev: seq<nat>, next: seq<nat>, x: nat, l: seq<nat>, i: nat)
    requires i <= |l|
  {
    var a, b := Ring(x, l)[i], Ring(x, l)[i + 1];
    a < |prev| && b < |next| && prev[a] == b && next[b] == a
  }

  ghost predicate Linked(prev: seq<nat>, next: seq<nat>, x: nat, l: seq<nat>) {
    forall i: nat | i <= |l| :: Link(prev, next, x, l, i)
  }

  // home says on which list a pool node is, -1 for none. Every node is on its list, once, and on no other.
  ghost predicate Placed(lists: seq<seq<nat>>, home: seq<int>) {
    && |home| == LIST_NUM
    && (forall h: nat, i: nat | h < |lists| && i < |lists[h]| :: lists[h][i] < LIST_NUM && home[lists[h][i]] == h)
    && (forall h: nat, i: nat, j: nat | h < |lists| && i < j < |lists[h]| :: lists[h][i] != lists[h][j])
    && (forall n: nat | n < LIST_NUM && home[n] != -1 :: 0 <= home[n] < |lists| && n in lists[home[n]])
  }

  ghost predicate AllLinked(prev: seq<nat>, next: seq<nat>, lists: seq<seq<nat>>) {
    forall h: nat | h < |lists| :: Linked(prev, next, HeadCell(h), lists[h])
  }

  function QueuesOf(item: seq<int>, lists: seq<seq<nat>>): (q: seq<seq<int>>)
    requires forall h, i | 0 <= h < |lists| && 0 <= i < |lists[h]| :: lists[h][i] < |item|
    ensures |q| == |lists|
  {
    seq(|lists|, h requires 0 <= h < |lists| => Items(item, lists[h]))
  }

  function Items(item: seq<int>, l: seq<nat>): (q: seq<int>)
    requires forall i | 0 <= i < |l| :: l[i] < |item|
    ensures |q| == |l|
  {
    seq(|l|, i requires 0 <= i < |l| => item[l[i]])
  }

  // Relinking n behind the last node of the ring of x.
  lemma Appended(prev: seq<nat>, next: seq<nat>, prev': seq<nat>, next': seq<nat>, x: nat, l: seq<nat>, n: nat)
    requires Linked(prev, next, x, l) && |prev| == |next| == |prev'| == |next'|
    requires n < |prev| && x < |prev| && n != x && n !in l && x !in l && next[x] < |prev|
    requires forall i, j | 0 <= i < j < |l| :: l[i] != l[j]
    requires prev' == prev[n := x][next[x] := n] && next' == next[n := next[x]][x := n]
    ensures Linked(prev', next', x, l + [n])
  {
    var r, r' := Ring(x, l), Ring(x, l + [n]);
    assert Link(prev, next, x, l, |l|);
    assert next[x] == r[|l|];
    forall i: nat | i <= |l| + 1 ensures Link(prev', next', x, l + [n], i) {
      if i < |l| { assert Link(prev, next, x, l, i) && r'[i] == r[i] && r'[i + 1] == r[i + 1] == l[i]; }
    }
  }

  // Relinking round the first node of the ring of x.
  lemma Detached(prev: seq<nat>, next: seq<nat>, prev': seq<nat>, next': seq<nat>, x: nat, l: seq<nat>)
    requires Linked(prev, next, x, l) && |prev| == |next| == |prev'| == |next'| && l != []
    requires x !in l && forall i, j | 0 <= i < j < |l| :: l[i] != l[j]
    requires l[0] < |prev| && prev[l[0]] < |next| && next[l[0]] == x && x < |prev|
    requires next' == next[prev[l[0]] := x] && prev' == prev[x := prev[l[0]]]
    ensures Linked(prev', next', x, l[1..])
  {
    var r, r' := Ring(x, l), Ring(x, l[1..]);
    assert Link(prev, next, x, l, 1);
    forall i: nat | i <= |l| - 1 ensures Link(prev', next', x, l[1..], i) {
      assert Link(prev, next, x, l, i + 1) && r'[i + 1] == r[i + 2];
      if i > 0 { assert r'[i] == r[i + 1]; }
    }
  }

  // A ring none of whose cells are touched.
  lemma LinkedSame(prev: seq<nat>, next: seq<nat>, prev': seq<nat>, next': seq<nat>, x: nat, l: seq<nat>)
    requires Linked(prev, next, x, l) && |prev'| == |prev| && |next'| == |next|
    requires forall c | c in Ring(x, l) && c < |prev| :: prev'[c] == prev[c]
    requires forall c | c in Ring(x, l) && c < |next| :: next'[c] == next[c]
    ensures Linked(prev', next', x, l)
  {
    forall i: nat | i <= |l| ensures Link(prev', next', x, l, i) { assert Link(prev, next, x, l, i); }
  }

  lemma PlacedMore(lists: seq<seq<nat>>, home: seq<int>, h: nat, n: nat)
    requires Placed(lists, home) && h < |lists| && n < LIST_NUM && home[n] == -1
    ensures Placed(lists[h := lists[h] + [n]], home[n := h])
  {
    var lists', home' := lists[h := lists[h] + [n]], home[n := h];
    forall m: nat | m < LIST_NUM && home'[m] != -1 ensures 0 <= home'[m] < |lists'| && m in lists'[home'[m]] {
      if m != n { assert m in lists[home[m]]; }
    }
  }

  lemma PlacedFewer(lists: seq<seq<nat>>, home: seq<int>, h: nat)
    requires Placed(lists, home) && h < |lists| && lists[h] != []
    ensures lists[h][0] < LIST_NUM && Placed(lists[h := lists[h][1..]], home[lists[h][0] := -1])
  {
    var n := lists[h][0];
    var lists', home' := lists[h := lists[h][1..]], home[n := -1];
    forall m: nat | m < LIST_NUM && home'[m] != -1 ensures 0 <= home'[m] < |lists'| && m in lists'[home'[m]] {
      assert m in lists[home[m]];
      if home[m] == h {
        var i :| 0 <= i < |lists[h]| && lists[h][i] == m;
        assert lists'[h][i - 1] == m;
      }
    }
  }

  // Cells of different rings are different.
  lemma RingsApart(lists: seq<seq<nat>>, home: seq<int>, g: nat, c: nat)
    requires Placed(lists, home) && g < |lists| && c in Ring(HeadCell(g), lists[g])
    ensures c == HeadCell(g) || (c < LIST_NUM && home[c] == g)
  {}

  lemma AddedRings(prev: seq<nat>, next: seq<nat>, prev': seq<nat>, next': seq<nat>, lists: seq<seq<nat>>,
      home: seq<int>, h: nat, n: nat)
    requires Placed(lists, home) && AllLinked(prev, next, lists) && h < |lists| && n < LIST_NUM && home[n] == -1
    requires |prev| == |next| == LIST_NUM + |lists|
    requires var x, l := HeadCell(h), lists[h];
      && next[x] == (if l == [] then x else l[|l| - 1])
      && prev' == prev[n := x][next[x] := n] && next' == next[n := next[x]][x := n]
    ensures AllLinked(prev', next', lists[h := lists[h] + [n]])
  {
    hide Linked;
    forall g: nat | g < |lists| ensures Linked(prev', next', HeadCell(g), lists[h := lists[h] + [n]][g]) {
      if g == h {
        Appended(prev, next, prev', next', HeadCell(h), lists[h], n);
      } else {
        forall c | c in Ring(HeadCell(g), lists[g]) && c < |prev| ensures prev'[c] == prev[c] && next'[c] == next[c] {
          RingsApart(lists, home, g, c);
        }
        LinkedSame(prev, next, prev', next', HeadCell(g), lists[g]);
      }
    }
  }

  // The first node's links: forward to the second (or the head), back to the head.
  lemma FirstLinks(prev: seq<nat>, next: seq<nat>, x: nat, l: seq<nat>)
    requires Linked(prev, next, x, l) && l != []
    ensures l[0] < |prev| && l[0] < |next| && x < |prev| && next[l[0]] == x
      && prev[l[0]] == (if |l| == 1 then x else l[1])
    ensures prev[l[0]] < |next|
  {
    assert Link(prev, next, x, l, 0) && Link(prev, next, x, l, 1);
  }

  lemma RemovedRings(prev: seq<nat>, next: seq<nat>, prev': seq<nat>, next': seq<nat>, lists: seq<seq<nat>>,
      home: seq<int>, h: nat)
    requires Placed(lists, home) && AllLinked(prev, next, lists) && h < |lists| && lists[h] != []
    requires |prev| == |next| == LIST_NUM + |lists|
    requires var x, l := HeadCell(h), lists[h];
      && l[0] < |prev| && next[l[0]] == x && prev[l[0]] == (if |l| == 1 then x else l[1]) && prev[l[0]] < |next|
      && next' == next[prev[l[0]] := x] && prev' == prev[x := prev[l[0]]]
    ensures AllLinked(prev', next', lists[h := lists[h][1..]])
  {
    hide Linked;
    forall g: nat | g < |lists| ensures Linked(prev', next', HeadCell(g), lists[h := lists[h][1..]][g]) {
      if g == h {
        Detached(prev, next, prev', next', HeadCell(h), lists[h]);
      } else {
        forall c | c in Ring(HeadCell(g), lists[g]) && c < |prev| ensures prev'[c] == prev[c] && next'[c] == next[c] {
          RingsApart(lists, home, g, c);
        }
        LinkedSame(prev, next, prev', next', HeadCell(g), lists[g]);
      }
    }
  }

  // The first free node, filled with p, goes behind list h.
  lemma QueuesEnqueue(item: seq<int>, lists: seq<seq<nat>>, home: seq<int>, h: nat, p: int)
    requires |item| == LIST_NUM && Placed(lists, home) && 1 <= h < |lists| && lists[FREE] != []
    ensures var n := lists[FREE][0];
      var item', lists' := item[n := p], lists[FREE := lists[FREE][1..]][h := lists[h] + [n]];
      && (forall g, i | 0 <= g < |lists'| && 0 <= i < |lists'[g]| :: lists'[g][i] < LIST_NUM)
      && QueuesOf(item', lists')
         == QueuesOf(item, lists)[h := QueuesOf(item, lists)[h] + [p]][FREE := QueuesOf(item', lists')[FREE]]
  {
    var n := lists[FREE][0];
    var item', lists' := item[n := p], lists[FREE := lists[FREE][1..]][h := lists[h] + [n]];
    forall g, i | 0 <= g < |lists'| && 0 <= i < |lists'[g]| ensures lists'[g][i] < LIST_NUM {}
    forall g | 0 < g < |lists|
      ensures Items(item', lists'[g]) == if g == h then Items(item, lists[g]) + [p] else Items(item, lists[g])
    {
      forall i | 0 <= i < |lists[g]| ensures lists[g][i] != n { assert home[lists[g][i]] == g && home[n] == FREE; }
    }
  }

  lemma QueuesDequeue(item: seq<int>, lists: seq<seq<nat>>, home: seq<int>, h: nat)
    requires |item| == LIST_NUM && Placed(lists, home) && 1 <= h < |lists| && lists[h] != []
    ensures var n := lists[h][0];
      var lists' := lists[h := lists[h][1..]][FREE := lists[FREE] + [n]];
      && (forall g, i | 0 <= g < |lists'| && 0 <= i < |lists'[g]| :: lists'[g][i] < LIST_NUM)
      && QueuesOf(item, lists')
         == QueuesOf(item, lists)[h := QueuesOf(item, lists)[h][1..]][FREE := QueuesOf(item, lists')[FREE]]
  {
    var lists' := lists[h := lists[h][1..]][FREE := lists[FREE] + [lists[h][0]]];
    forall g, i | 0 <= g < |lists'| && 0 <= i < |lists'[g]| ensures lists'[g][i] < LIST_NUM {}
    assert Items(item, lists'[h]) == Items(item, lists[h])[1..];
  }

  // ---- the pool is large enough ----

  // No value is on two lists, or twice on one; the free list does not matter.
  ghost predicate AllDifferent(queues: seq<seq<int>>, bound: nat) {
    && (forall g: nat, i: nat | 1 <= g < |queues| && i < |queues[g]| :: 0 <= queues[g][i] < bound)
    && (forall g: nat, i: nat, h: nat, j: nat
      | 1 <= g < |queues| && i < |queues[g]| && 1 <= h < |queues| && j < |queues[h]| ::
      queues[g][i] == queues[h][j] ==> g == h && i == j)
  }

  lemma {:induction false} DistinctCount(f: seq<int>, bound: nat)
    requires forall i | 0 <= i < |f| :: 0 <= f[i] < bound
    requires forall i, j | 0 <= i < j < |f| :: f[i] != f[j]
    ensures |f| <= bound
  {
    SetOfSeq(f);
    FewBelow(set i | 0 <= i < |f| :: f[i], bound);
  }

  lemma {:induction false} SetOfSeq(f: seq<int>)
    requires forall i, j | 0 <= i < j < |f| :: f[i] != f[j]
    ensures |set i | 0 <= i < |f| :: f[i]| == |f|
  {
    if f != [] {
      var n := |f| - 1;
      SetOfSeq(f[..n]);
      var less := set i | 0 <= i < n :: f[..n][i];
      assert (set i | 0 <= i < |f| :: f[i]) == less + {f[n]};
    }
  }

  lemma {:induction false} FewBelow(a: set<int>, n: nat)
    requires forall x | x in a :: 0 <= x < n
    ensures |a| <= n
  {
    if n == 0 {
      assert forall x :: x !in a;
      assert a == {};
    } else {
      FewBelow(a - {n - 1}, n - 1);
      assert a <= (a - {n - 1}) + {n - 1};
      if n - 1 in a { assert a == (a - {n - 1}) + {n - 1}; } else { assert a == a - {n - 1}; }
    }
  }

  class ListPool {
    const heads: nat
    const prev: array<nat>
    const next: array<nat>
    const item: array<int>
    ghost var lists: seq<seq<nat>>
    ghost var home: seq<int>

    // Everything but perhaps that every node is on a list.
    ghost predicate Sound()
      reads this, prev, next, item
    {
      && prev != next && heads >= 1
      && prev.Length == LIST_NUM + heads && next.Length == LIST_NUM + heads && item.Length == LIST_NUM
      && |lists| == heads && Placed(lists, home) && AllLinked(prev[..], next[..], lists)
    }

    ghost predicate Valid()
      reads this, prev, next, item
    {
      Sound() && forall n: nat | n < LIST_NUM :: home[n] != -1
    }

    // What is queued on every list, the first come first.
    ghost function Queues(): (q: seq<seq<int>>)
      requires Valid()
      reads this, prev, next, item
      ensures |q| == heads
    {
      QueuesOf(item[..], lists)
    }

    ghost function Queue(h: nat): seq<int>
      requires Valid() && h < heads
      reads this, prev, next, item
    {
      Queues()[h]
    }

    constructor (heads: nat)
      requires heads >= 1
      ensures Valid() && this.heads == heads && fresh(prev) && fresh(next) && fresh(item)
      ensures forall h: nat | 1 <= h < heads :: Queue(h) == []
    {
      this.heads := heads;
      prev := new nat[LIST_NUM + heads](i => i);
      next := new nat[LIST_NUM + heads](i => i);
      item := new int[LIST_NUM](_ => 0);
      lists := seq(heads, _ => []);
      home := seq(LIST_NUM, _ => -1);
      new;
      for i := 0 to LIST_NUM
        invariant Sound() && prev.Length == LIST_NUM + heads
        invariant forall n: nat | n < i :: home[n] == FREE
        invariant forall n: nat | i <= n < LIST_NUM :: home[n] == -1
        invariant forall h: nat | 1 <= h < heads :: lists[h] == []
      {
        AddNext(FREE, i);
      }
    }

    // list_add_next: behind the head, so last in the order of prev.
    method AddNext(h: nat, n: nat)
      requires Sound() && h < heads && n < LIST_NUM && home[n] == -1
      modifies this`lists, this`home, prev, next
      ensures Sound() && lists == old(lists)[h := old(lists)[h] + [n]] && home == old(home)[n := h]
    {
      var x := HeadCell(h);
      HeadLast(h);
      prev[n] := x;
      next[n] := next[x];
      next[prev[n]] := n;
      prev[next[n]] := n;
      ghost var was, l := lists, lists[h];
      lists := lists[h := l + [n]];
      home := home[n := h];
      PlacedMore(was, old(home), h, n);
      AddedRings(old(prev[..]), old(next[..]), prev[..], next[..], was, old(home), h, n);
    }

    // The head's next is a cell of its own ring.
    lemma HeadLast(h: nat)
      requires Sound() && h < heads
      ensures var x, l := HeadCell(h), lists[h];
        next[x] == (if l == [] then x else l[|l| - 1]) && prev[x] == (if l == [] then x else l[0])
    {
      var x, l := HeadCell(h), lists[h];
      assert Linked(prev[..], next[..], x, l);
      assert Link(prev[..], next[..], x, l, 0) && Link(prev[..], next[..], x, l, |l|);
    }

    // list_remove_prev: the one that has been on the list longest.
    method RemovePrev(h: nat) returns (n: nat)
      requires Sound() && h < heads && lists[h] != []
      modifies this`lists, this`home, prev, next
      ensures n == old(lists)[h][0] && n < LIST_NUM
      ensures Sound() && lists == old(lists)[h := old(lists)[h][1..]] && home == old(home)[n := -1]
    {
      var x := HeadCell(h);
      HeadLast(h);
      n := prev[x];
      ghost var was, l := lists, lists[h];
      FirstLinks(prev[..], next[..], x, l);
      next[prev[n]] := next[n];
      prev[next[n]] := prev[n];
      lists := lists[h := l[1..]];
      home := home[n := -1];
      PlacedFewer(was, old(home), h);
      RemovedRings(old(prev[..]), old(next[..]), prev[..], next[..], was, old(home), h);
    }

    // With fewer queued values than nodes, and none queued twice, list_enqueue finds a free node.
    lemma HasFree(bound: nat)
      requires Valid() && AllDifferent(Queues(), bound) && bound < LIST_NUM
      ensures Queue(FREE) != []
    {
      if lists[FREE] == [] {
        forall n: nat | n < LIST_NUM
          ensures exists g: nat, i: nat ::
            1 <= g < heads && i < |lists[g]| && lists[g][i] == n && Queues()[g][i] == item[n]
        {
          var g: nat := home[n];
          assert n in lists[g];
          var i: nat :| i < |lists[g]| && lists[g][i] == n;
          assert Queues()[g][i] == item[n];
        }
        DistinctCount(item[..], bound);
      }
    }

    method Empty(h: nat) returns (b: bool)
      requires Valid() && h < heads
      ensures b <==> Queue(h) == []
    {
      HeadLast(h);
      b := HeadCell(h) == next[HeadCell(h)];
    }

    // list_init on a list that holds nothing.
    method Init(h: nat)
      requires Valid() && h < heads && Queue(h) == []
      modifies prev, next
      ensures Valid() && Queues() == old(Queues())
    {
      HeadLast(h);
      prev[HeadCell(h)] := HeadCell(h);
      next[HeadCell(h)] := HeadCell(h);
      assert prev[..] == old(prev[..]) && next[..] == old(next[..]);
    }

    // list_enqueue; the kernel's assertion is the requirement that the free list is not empty.
    method Enqueue(h: nat, p: int)
      requires Valid() && 1 <= h < heads && Queue(FREE) != []
      modifies this`lists, this`home, prev, next, item
      ensures Valid() && |Queue(FREE)| == old(|Queue(FREE)|) - 1
      ensures Queues() == old(Queues())[h := old(Queue(h)) + [p]][FREE := Queue(FREE)]
    {
      QueuesEnqueue(item[..], lists, home, h, p);
      var n := RemovePrev(FREE);
      item[n] := p;
      AddNext(h, n);
    }

    method Dequeue(h: nat) returns (p: int, some: bool)
      requires Valid() && 1 <= h < heads
      modifies this`lists, this`home, prev, next
      ensures Valid() && (some <==> old(Queue(h)) != [])
      ensures some ==> p == old(Queue(h))[0] && Queues() == old(Queues())[h := old(Queue(h))[1..]][FREE := Queue(FREE)]
      ensures !some ==> Queues() == old(Queues())
    {
      var none := Empty(h);
      if none { return 0, false; }
      QueuesDequeue(item[..], lists, home, h);
      var n := RemovePrev(h);
      AddNext(FREE, n);
      return item[n], true;
    }
  }
}

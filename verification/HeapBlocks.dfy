// The heap of user/ulib/stdlib.c as values: the circular list of free blocks in memory, and which
// block every unit of memory belongs to. A unit is one header, 8 bytes; block b has its header at unit
// b: ptr[b] is the next free block, size[b] its size in units, header included.
module HeapBlocks {

  // The static header `base`, below the heap; its size is 0.
  const BASE := 0

  // ---- lists ----

  function Ins(s: seq<nat>, k: nat, b: nat): (r: seq<nat>)
    requires k <= |s|
    ensures |r| == |s| + 1
    ensures forall j: nat | j < |r| :: r[j] == if j < k then s[j] else if j == k then b else s[j - 1]
  {
    s[..k] + [b] + s[k..]
  }

  function Del(s: seq<nat>, k: nat): (r: seq<nat>)
    requires k < |s|
    ensures |r| == |s| - 1
    ensures forall j: nat | j < |r| :: r[j] == if j < k then s[j] else s[j + 1]
  {
    s[..k] + s[k + 1..]
  }

  function Next(fl: seq<nat>, i: nat): nat
    requires i < |fl|
  {
    if i + 1 < |fl| then fl[i + 1] else fl[0]
  }

  // ---- the invariant ----

  // fl is the free list in order; base comes first.
  ghost predicate Circular(ptr: seq<nat>, fl: seq<nat>) {
    && fl != [] && fl[0] == BASE
    && (forall i: nat | i < |fl| :: fl[i] < |ptr|)
    && (forall i: nat | i < |fl| :: ptr[fl[i]] == Next(fl, i))
  }

  // In address order, and no free block reaches into a later one.
  ghost predicate Ordered(size: seq<nat>, fl: seq<nat>, start: nat) {
    && 1 <= start && fl != [] && fl[0] == BASE && |size| > 0 && size[BASE] == 0
    && (forall i: nat | i < |fl| :: fl[i] < |size|)
    && (forall i: nat, j: nat | i < j < |fl| :: fl[i] < fl[j] && fl[i] + size[fl[i]] <= fl[j])
    && (forall i: nat | 1 <= i < |fl| :: start <= fl[i] && size[fl[i]] >= 1)
  }

  predicate Block(tag: seq<nat>, start: nat, brk: nat, b: nat) {
    start <= b < brk <= |tag| && tag[b] == b
  }

  // tag[u] is the block unit u is part of: the blocks cut up the memory between start and brk.
  ghost predicate Tiled(size: seq<nat>, tag: seq<nat>, start: nat, brk: nat) {
    && 1 <= start <= brk <= |size| == |tag|
    && (forall u: nat | start <= u < brk :: start <= tag[u] <= u && Block(tag, start, brk, tag[u]))
    && (forall b: nat | Block(tag, start, brk, b) :: size[b] >= 1 && b + size[b] <= brk)
    && (forall b: nat, u: nat | Block(tag, start, brk, b) && start <= u < brk :: tag[u] == b <==> b <= u < b + size[b])
  }

  // Every block is either in use or on the free list.
  ghost predicate Parted(fl: seq<nat>, tag: seq<nat>, start: nat, brk: nat, live: set<nat>) {
    && fl != []
    && (forall b: nat | b in live :: Block(tag, start, brk, b))
    && (forall i: nat | 1 <= i < |fl| :: Block(tag, start, brk, fl[i]) && fl[i] !in live)
    && (forall b: nat | Block(tag, start, brk, b) && b !in live :: b in fl[1..])
  }

  predicate Touches(size: seq<nat>, fl: seq<nat>, i: nat) {
    i + 1 < |fl| && fl[i] < |size| && fl[i] + size[fl[i]] == fl[i + 1]
  }

  // No two free blocks touch.
  ghost predicate Coalesced(size: seq<nat>, fl: seq<nat>) {
    forall i: nat :: !Touches(size, fl, i)
  }

  datatype Heap = Heap(ptr: seq<nat>, size: seq<nat>, start: nat, brk: nat, fl: seq<nat>, tag: seq<nat>, live: set<nat>)

  ghost predicate Inv(h: Heap) {
    && |h.ptr| == |h.size|
    && Circular(h.ptr, h.fl) && Ordered(h.size, h.fl, h.start) && Tiled(h.size, h.tag, h.start, h.brk)
    && Parted(h.fl, h.tag, h.start, h.brk, h.live)
  }

  // ---- putting a block on the list, behind the i-th ----

  // A block in use lies clear of every free one.
  lemma Clear(h: Heap, b: nat, k: nat)
    requires Inv(h) && b in h.live && k < |h.fl|
    ensures h.start <= b && h.size[b] >= 1 && b + h.size[b] <= h.brk <= |h.size|
    ensures h.fl[k] + h.size[h.fl[k]] <= b || b + h.size[b] <= h.fl[k]
  {
    hide Circular;
    assert Block(h.tag, h.start, h.brk, b);
    if k >= 1 { BlocksApart(h.size, h.tag, h.start, h.brk, h.fl[k], b); }
  }

  lemma BlocksApart(size: seq<nat>, tag: seq<nat>, start: nat, brk: nat, b: nat, c: nat)
    requires Tiled(size, tag, start, brk) && Block(tag, start, brk, b) && Block(tag, start, brk, c) && b != c
    ensures b + size[b] <= c || c + size[c] <= b
  {
    assert tag[c] == b <==> b <= c < b + size[b];
    assert tag[b] == c <==> c <= b < c + size[c];
  }

  ghost predicate Between(fl: seq<nat>, i: nat, b: nat) {
    i < |fl| && fl[i] < b && (i + 1 < |fl| ==> b < fl[i + 1])
  }

  lemma InsertCircular(ptr: seq<nat>, fl: seq<nat>, i: nat, b: nat)
    requires Circular(ptr, fl) && i < |fl| && b < |ptr| && b != BASE
    requires (forall k: nat | k < |fl| :: fl[k] != b) && forall k: nat, l: nat | k < l < |fl| :: fl[k] != fl[l]
    ensures Circular(ptr[b := Next(fl, i)][fl[i] := b], Ins(fl, i + 1, b))
  {
    var g, q := Ins(fl, i + 1, b), ptr[b := Next(fl, i)][fl[i] := b];
    hide Ins;
    assert q[b] == Next(fl, i) && q[fl[i]] == b && g[0] == BASE;
    forall k: nat | k < |g| ensures g[k] < |q| && q[g[k]] == Next(g, k) {
      if k < i {
        assert g[k] == fl[k] && g[k + 1] == fl[k + 1] && q[fl[k]] == ptr[fl[k]] == Next(fl, k);
      } else if k > i + 1 {
        assert g[k] == fl[k - 1] && q[fl[k - 1]] == ptr[fl[k - 1]] == Next(fl, k - 1);
      }
    }
  }

  // Every block up to the i-th ends before b, every later one begins behind it.
  lemma Sides(size: seq<nat>, fl: seq<nat>, start: nat, i: nat, b: nat, k: nat)
    requires Ordered(size, fl, start) && Between(fl, i, b) && start <= b < |size| && size[b] >= 1 && k < |fl|
    requires fl[k] + size[fl[k]] <= b || b + size[b] <= fl[k]
    ensures if k <= i then fl[k] < b && fl[k] + size[fl[k]] <= b else b < fl[k] && b + size[b] <= fl[k]
  {
    assert k < i ==> fl[k] < fl[i];
    assert k > i + 1 ==> fl[i + 1] < fl[k];
  }

  lemma InsertOrdered(size: seq<nat>, fl: seq<nat>, start: nat, i: nat, b: nat)
    requires Ordered(size, fl, start) && Between(fl, i, b) && start <= b < |size| && size[b] >= 1
    requires forall k: nat | k < |fl| :: fl[k] + size[fl[k]] <= b || b + size[b] <= fl[k]
    ensures Ordered(size, Ins(fl, i + 1, b), start)
  {
    var g := Ins(fl, i + 1, b);
    hide Ins;
    forall k: nat | k < |g| ensures g[k] < |size| {}
    forall k: nat, l: nat | k < l < |g| ensures g[k] < g[l] && g[k] + size[g[k]] <= g[l] {
      if l == i + 1 { Sides(size, fl, start, i, b, k); }
      else if k == i + 1 { Sides(size, fl, start, i, b, l - 1); }
      else {
        var k0, l0: nat := if k <= i then k else k - 1, if l <= i then l else l - 1;
        assert g[k] == fl[k0] && g[l] == fl[l0] && fl[k0] < fl[l0];
      }
    }
  }

  lemma InsertParted(fl: seq<nat>, tag: seq<nat>, start: nat, brk: nat, live: set<nat>, i: nat, b: nat)
    requires Parted(fl, tag, start, brk, live) && i < |fl| && b in live
    ensures Parted(Ins(fl, i + 1, b), tag, start, brk, live - {b})
  {
    var g := Ins(fl, i + 1, b);
    hide Ins;
    forall c: nat | Block(tag, start, brk, c) && c !in live - {b} ensures c in g[1..] {
      if c == b { assert g[1..][i] == b; }
      else {
        assert c in fl[1..];
        var k: nat :| k < |fl[1..]| && fl[1..][k] == c;
        assert g[1..][if k < i then k else k + 1] == c;
      }
    }
  }

  function Insert(h: Heap, i: nat, b: nat): Heap {
    if i >= |h.fl| || h.fl[i] >= |h.ptr| || b >= |h.ptr| then h
    else h.(ptr := h.ptr[b := Next(h.fl, i)][h.fl[i] := b], fl := Ins(h.fl, i + 1, b), live := h.live - {b})
  }

  lemma InsertPlaces(h: Heap, i: nat, b: nat)
    requires Inv(h) && b in h.live && Between(h.fl, i, b)
    ensures h.start <= b < |h.ptr| && h.size[b] >= 1 && b != BASE && h.fl[i] < |h.ptr|
    ensures forall k: nat | k < |h.fl| ::
      h.fl[k] < |h.size| && h.fl[k] != b && (h.fl[k] + h.size[h.fl[k]] <= b || b + h.size[b] <= h.fl[k])
    ensures forall k: nat, l: nat | k < l < |h.fl| :: h.fl[k] != h.fl[l]
  {
    hide Tiled, Parted, Circular;
    Clear(h, b, 0);
    forall k: nat | k < |h.fl|
      ensures h.fl[k] < |h.size| && h.fl[k] != b && (h.fl[k] + h.size[h.fl[k]] <= b || b + h.size[b] <= h.fl[k])
    {
      Clear(h, b, k);
    }
  }

  lemma InsertInv(h: Heap, i: nat, b: nat)
    requires Inv(h) && b in h.live && Between(h.fl, i, b)
    ensures b < |h.ptr| && h.fl[i] < |h.ptr| && Inv(Insert(h, i, b))
  {
    hide Tiled, Parted, Ins, Ordered, Circular;
    InsertPlaces(h, i, b);
    InsertOrdered(h.size, h.fl, h.start, i, b);
    InsertCircular(h.ptr, h.fl, i, b);
    InsertParted(h.fl, h.tag, h.start, h.brk, h.live, i, b);
  }

  // Only the new block can touch its neighbours.
  lemma InsertTouches(size: seq<nat>, fl: seq<nat>, i: nat, b: nat, k: nat)
    requires i < |fl| && Coalesced(size, fl) && k != i && k != i + 1
    ensures !Touches(size, Ins(fl, i + 1, b), k)
  {
    hide Ins;
    if k < i { assert !Touches(size, fl, k); }
    else { assert !Touches(size, fl, k - 1); }
  }

  // ---- merging the i-th free block with the next one ----

  lemma MergeCircular(ptr: seq<nat>, fl: seq<nat>, i: nat)
    requires Circular(ptr, fl) && i + 1 < |fl| && forall k: nat, l: nat | k < l < |fl| :: fl[k] != fl[l]
    ensures Circular(ptr[fl[i] := ptr[fl[i + 1]]], Del(fl, i + 1))
  {
    var g, q := Del(fl, i + 1), ptr[fl[i] := ptr[fl[i + 1]]];
    hide Del;
    assert ptr[fl[i + 1]] == Next(fl, i + 1) && g[0] == BASE;
    forall k: nat | k < |g| ensures g[k] < |q| && q[g[k]] == Next(g, k) {
      if k != i {
        var l := if k < i then k else k + 1;
        assert g[k] == fl[l] != fl[i] && ptr[fl[l]] == Next(fl, l);
      }
    }
  }

  lemma MergeOrdered(size: seq<nat>, fl: seq<nat>, start: nat, i: nat)
    requires Ordered(size, fl, start) && 1 <= i && Touches(size, fl, i)
    ensures Ordered(size[fl[i] := size[fl[i]] + size[fl[i + 1]]], Del(fl, i + 1), start)
  {
    var g, z := Del(fl, i + 1), size[fl[i] := size[fl[i]] + size[fl[i + 1]]];
    hide Del;
    forall k: nat, l: nat | k < l < |g| ensures g[k] < g[l] && g[k] + z[g[k]] <= g[l] {}
  }

  function Retag(tag: seq<nat>, c: nat, b: nat): (r: seq<nat>)
    ensures |r| == |tag|
    ensures forall u: nat | u < |tag| :: r[u] == if tag[u] == c then b else tag[u]
  {
    seq(|tag|, u requires 0 <= u < |tag| => if tag[u] == c then b else tag[u])
  }

  lemma MergeTiled(size: seq<nat>, tag: seq<nat>, start: nat, brk: nat, b: nat, c: nat)
    requires Tiled(size, tag, start, brk) && Block(tag, start, brk, b) && Block(tag, start, brk, c) && b + size[b] == c
    ensures Tiled(size[b := size[b] + size[c]], Retag(tag, c, b), start, brk)
  {
    var t, z := Retag(tag, c, b), size[b := size[b] + size[c]];
    hide Retag;
    RetagBlocks(tag, start, brk, b, c);
    forall d: nat, u: nat | Block(t, start, brk, d) && start <= u < brk ensures t[u] == d <==> d <= u < d + z[d] {
      assert tag[u] == d <==> d <= u < d + size[d];
      assert tag[u] == c <==> c <= u < c + size[c];
    }
  }

  lemma RetagBlocks(tag: seq<nat>, start: nat, brk: nat, b: nat, c: nat)
    requires Block(tag, start, brk, b) && Block(tag, start, brk, c) && b != c
    ensures forall d: nat :: Block(Retag(tag, c, b), start, brk, d) <==> Block(tag, start, brk, d) && d != c
  {}

  lemma MergeParted(fl: seq<nat>, tag: seq<nat>, start: nat, brk: nat, live: set<nat>, i: nat)
    requires Parted(fl, tag, start, brk, live) && 1 <= i && i + 1 < |fl|
      && forall k: nat, l: nat | k < l < |fl| :: fl[k] != fl[l]
    ensures Parted(Del(fl, i + 1), Retag(tag, fl[i + 1], fl[i]), start, brk, live)
  {
    var g, b, c := Del(fl, i + 1), fl[i], fl[i + 1];
    RetagBlocks(tag, start, brk, b, c);
    hide Del, Retag, Block;
    var t := Retag(tag, c, b);
    forall j: nat | 1 <= j < |g| ensures Block(t, start, brk, g[j]) && g[j] !in live {
      var k := if j < i + 1 then j else j + 1;
      assert g[j] == fl[k] && fl[k] != c;
    }
    forall d: nat | Block(t, start, brk, d) && d !in live ensures d in g[1..] {
      assert Block(tag, start, brk, d) && d in fl[1..];
      var k: nat :| k < |fl[1..]| && fl[1..][k] == d;
      assert fl[k + 1] == d && k != i;
      var j := if k < i then k + 1 else k;
      assert g[j] == d && g[1..][j - 1] == g[j];
    }
  }

  lemma ListInMemory(ptr: seq<nat>, fl: seq<nat>)
    requires Circular(ptr, fl)
    ensures forall i: nat | i < |fl| :: fl[i] < |ptr|
  {}

  function Merge(h: Heap, i: nat): Heap {
    if i + 1 >= |h.fl| || |h.ptr| != |h.size| || h.fl[i] >= |h.ptr| || h.fl[i + 1] >= |h.ptr| then h
    else
      var b, c := h.fl[i], h.fl[i + 1];
      h.(ptr := h.ptr[b := h.ptr[c]], size := h.size[b := h.size[b] + h.size[c]], fl := Del(h.fl, i + 1),
        tag := Retag(h.tag, c, b))
  }

  lemma MergePlaces(h: Heap, i: nat)
    requires Inv(h) && 1 <= i && Touches(h.size, h.fl, i)
    ensures i + 1 < |h.fl| && h.fl[i] < |h.ptr| == |h.size| && h.fl[i + 1] < |h.ptr|
    ensures forall k: nat, l: nat | k < l < |h.fl| :: h.fl[k] != h.fl[l]
    ensures Block(h.tag, h.start, h.brk, h.fl[i]) && Block(h.tag, h.start, h.brk, h.fl[i + 1])
  {
    hide Tiled, Circular;
    ListInMemory(h.ptr, h.fl);
  }

  lemma MergeInv(h: Heap, i: nat)
    requires Inv(h) && 1 <= i && Touches(h.size, h.fl, i)
    ensures i + 1 < |h.fl| && h.fl[i] < |h.ptr| == |h.size| && h.fl[i + 1] < |h.ptr| && Inv(Merge(h, i))
  {
    hide Tiled, Ins, Del, Retag, Circular, Ordered, Block, Parted;
    MergePlaces(h, i);
    MergeOrdered(h.size, h.fl, h.start, i);
    MergeCircular(h.ptr, h.fl, i);
    MergeTiled(h.size, h.tag, h.start, h.brk, h.fl[i], h.fl[i + 1]);
    MergeParted(h.fl, h.tag, h.start, h.brk, h.live, i);
  }

  // Merging settles the place where it happens and disturbs no other.
  lemma MergeTouches(size: seq<nat>, fl: seq<nat>, start: nat, i: nat, k: nat)
    requires Ordered(size, fl, start) && 1 <= i && Touches(size, fl, i)
    requires !Touches(size, fl, if k < i then k else k + 1)
    ensures !Touches(size[fl[i] := size[fl[i]] + size[fl[i + 1]]], Del(fl, i + 1), k)
  {
    var g := Del(fl, i + 1);
    hide Del;
    if k + 1 < |g| {
      assert g[k] == if k <= i then fl[k] else fl[k + 1];
      assert k != i ==> g[k] != fl[i];
    }
  }

  // ---- handing out the i-th free block ----

  // The whole block.
  function Take(h: Heap, i: nat): Heap {
    if i == 0 || i >= |h.fl| || h.fl[i] >= |h.ptr| || h.fl[i - 1] >= |h.ptr| then h
    else h.(ptr := h.ptr[h.fl[i - 1] := h.ptr[h.fl[i]]], fl := Del(h.fl, i), live := h.live + {h.fl[i]})
  }

  lemma TakeOrdered(size: seq<nat>, fl: seq<nat>, start: nat, i: nat)
    requires Ordered(size, fl, start) && 1 <= i < |fl|
    ensures Ordered(size, Del(fl, i), start)
    ensures Coalesced(size, fl) ==> Coalesced(size, Del(fl, i))
  {
    var g := Del(fl, i);
    hide Del;
    forall k: nat, l: nat | k < l < |g| ensures g[k] < g[l] && g[k] + size[g[k]] <= g[l] {}
    forall k: nat ensures Coalesced(size, fl) ==> !Touches(size, g, k) {
      assert Coalesced(size, fl) ==> !Touches(size, fl, k) && !Touches(size, fl, k + 1);
      assert k + 1 == i && k + 1 < |g| ==> fl[k] + size[fl[k]] <= fl[i] < fl[i + 1];
    }
  }

  lemma TakeParted(fl: seq<nat>, tag: seq<nat>, start: nat, brk: nat, live: set<nat>, i: nat)
    requires Parted(fl, tag, start, brk, live) && 1 <= i < |fl|
      && forall k: nat, l: nat | k < l < |fl| :: fl[k] != fl[l]
    ensures Parted(Del(fl, i), tag, start, brk, live + {fl[i]})
  {
    var g := Del(fl, i);
    hide Del, Block;
    forall d: nat | Block(tag, start, brk, d) && d !in live + {fl[i]} ensures d in g[1..] {
      assert d in fl[1..];
      var k: nat :| k < |fl[1..]| && fl[1..][k] == d;
      assert g[1..][if k < i - 1 then k else k - 1] == d;
    }
  }

  lemma TakeInv(h: Heap, i: nat)
    requires Inv(h) && Coalesced(h.size, h.fl) && 1 <= i < |h.fl|
    ensures h.fl[i] < |h.ptr| && h.fl[i - 1] < |h.ptr|
    ensures Inv(Take(h, i)) && Coalesced(h.size, Take(h, i).fl) && h.fl[i] !in h.live
  {
    hide Tiled, Del, Circular, Coalesced;
    ListInMemory(h.ptr, h.fl);
    assert forall k: nat, l: nat | k < l < |h.fl| :: h.fl[k] != h.fl[l];
    assert h.fl[i] !in h.live;
    TakeOrdered(h.size, h.fl, h.start, i);
    hide Ordered, Block, Parted;
    MergeCircular(h.ptr, h.fl, i - 1);
    TakeParted(h.fl, h.tag, h.start, h.brk, h.live, i);
  }

  // Its last n units.
  function Split(h: Heap, i: nat, n: nat): Heap {
    if i >= |h.fl| || h.fl[i] >= |h.size| || n == 0 || n >= h.size[h.fl[i]] || h.fl[i] + h.size[h.fl[i]] > |h.size|
      then h
    else
      var p := h.fl[i];
      var q := p + h.size[p] - n;
      h.(size := h.size[p := h.size[p] - n][q := n], tag := Cut(h.tag, q, n), live := h.live + {q})
  }

  // Units q to q + n become a block of their own.
  function Cut(tag: seq<nat>, q: nat, n: nat): (r: seq<nat>)
    ensures |r| == |tag|
    ensures forall u: nat | u < |tag| :: r[u] == if q <= u < q + n then q else tag[u]
  {
    seq(|tag|, u requires 0 <= u < |tag| => if q <= u < q + n then q else tag[u])
  }

  // Cutting the units q to q + n, which belong to p, off the end of p.
  lemma CutBlocks(tag: seq<nat>, start: nat, brk: nat, p: nat, q: nat, n: nat)
    requires start <= p < q && q + n <= brk <= |tag| && n >= 1 && forall u | q <= u < q + n :: tag[u] == p
    ensures forall d: nat :: Block(Cut(tag, q, n), start, brk, d) <==> Block(tag, start, brk, d) || d == q
  {
    hide Cut;
  }

  lemma SplitTiled(size: seq<nat>, tag: seq<nat>, start: nat, brk: nat, p: nat, n: nat)
    requires Tiled(size, tag, start, brk) && Block(tag, start, brk, p) && p < |size| && 1 <= n < size[p]
    ensures var q := p + size[p] - n;
      && q < |size| && Tiled(size[p := size[p] - n][q := n], Cut(tag, q, n), start, brk)
      && forall d: nat :: Block(Cut(tag, q, n), start, brk, d) <==> Block(tag, start, brk, d) || d == q
  {
    hide Tiled, Cut, Block;
    var q := p + size[p] - n;
    SplitBlocks(size, tag, start, brk, p, n, q);
    forall d: nat, u: nat | Block(Cut(tag, q, n), start, brk, d) && start <= u < brk
      ensures Cut(tag, q, n)[u] == d <==> d <= u < d + size[p := size[p] - n][q := n][d]
    {
      SplitUnit(size, tag, start, brk, p, n, q, d, u);
    }
    SplitTags(size, tag, start, brk, p, n, q);
    TiledIs(size[p := size[p] - n][q := n], Cut(tag, q, n), start, brk);
  }

  lemma TiledIs(size: seq<nat>, tag: seq<nat>, start: nat, brk: nat)
    requires 1 <= start <= brk <= |size| == |tag|
    requires forall u: nat | start <= u < brk :: start <= tag[u] <= u && Block(tag, start, brk, tag[u])
    requires forall b: nat | Block(tag, start, brk, b) :: b < brk && size[b] >= 1 && b + size[b] <= brk
    requires forall b: nat, u: nat | Block(tag, start, brk, b) && start <= u < brk ::
      b < brk && (tag[u] == b <==> b <= u < b + size[b])
    ensures Tiled(size, tag, start, brk)
  {}

  lemma SplitBlocks(size: seq<nat>, tag: seq<nat>, start: nat, brk: nat, p: nat, n: nat, q: nat)
    requires Tiled(size, tag, start, brk) && Block(tag, start, brk, p) && 1 <= n < size[p] && q == p + size[p] - n
    ensures q + n <= brk <= |size| == |tag| && 1 <= start <= brk
    ensures forall d: nat :: Block(Cut(tag, q, n), start, brk, d) <==> Block(tag, start, brk, d) || d == q
    ensures forall d: nat | Block(tag, start, brk, d) || d == q ::
      var z := size[p := size[p] - n][q := n]; d < brk && z[d] >= 1 && d + z[d] <= brk
  {
    assert forall u: nat | start <= u < brk :: tag[u] == p <==> p <= u < p + size[p];
    CutBlocks(tag, start, brk, p, q, n);
  }

  lemma SplitTags(size: seq<nat>, tag: seq<nat>, start: nat, brk: nat, p: nat, n: nat, q: nat)
    requires Tiled(size, tag, start, brk) && Block(tag, start, brk, p) && 1 <= n < size[p] && q == p + size[p] - n
    requires q + n <= brk
    requires forall d: nat :: Block(Cut(tag, q, n), start, brk, d) <==> Block(tag, start, brk, d) || d == q
    ensures var t := Cut(tag, q, n); forall u: nat | start <= u < brk ::
      start <= t[u] <= u && Block(t, start, brk, t[u])
  {
    var t := Cut(tag, q, n);
    hide Cut;
    forall u: nat | start <= u < brk ensures start <= t[u] <= u && Block(t, start, brk, t[u]) {
      assert Block(tag, start, brk, tag[u]);
    }
  }

  lemma SplitUnit(size: seq<nat>, tag: seq<nat>, start: nat, brk: nat, p: nat, n: nat, q: nat, d: nat, u: nat)
    requires Tiled(size, tag, start, brk) && Block(tag, start, brk, p) && 1 <= n < size[p] && q == p + size[p] - n
      && q < |size|
    requires start <= u < brk && (Block(tag, start, brk, d) || d == q)
    ensures Cut(tag, q, n)[u] == d <==> d <= u < d + size[p := size[p] - n][q := n][d]
  {
    hide Cut;
    assert tag[u] == p <==> p <= u < p + size[p];
    if Block(tag, start, brk, d) { assert tag[u] == d <==> d <= u < d + size[d]; }
    assert tag[q] == p <==> p <= q < p + size[p];
  }

  lemma SplitOrdered(size: seq<nat>, fl: seq<nat>, start: nat, i: nat, n: nat, q: nat)
    requires Ordered(size, fl, start) && 1 <= i < |fl| && n < size[fl[i]] && q == fl[i] + size[fl[i]] - n && q < |size|
      && n >= 1
    ensures Ordered(size[fl[i] := size[fl[i]] - n][q := n], fl, start)
    ensures Coalesced(size, fl) ==> Coalesced(size[fl[i] := size[fl[i]] - n][q := n], fl)
  {
    var z := size[fl[i] := size[fl[i]] - n][q := n];
    forall k: nat | k < |fl| ensures z[fl[k]] == if k == i then size[fl[i]] - n else size[fl[k]] {
      assert k < i ==> fl[k] + size[fl[k]] <= fl[i] && fl[k] < fl[i];
      assert k > i ==> q + n <= fl[k];
    }
    forall k: nat ensures Coalesced(size, fl) ==> !Touches(z, fl, k) {
      assert Coalesced(size, fl) ==> !Touches(size, fl, k);
    }
  }

  lemma SplitParted(fl: seq<nat>, tag: seq<nat>, t: seq<nat>, start: nat, brk: nat, live: set<nat>, q: nat)
    requires Parted(fl, tag, start, brk, live) && !Block(tag, start, brk, q)
    requires forall d: nat :: Block(t, start, brk, d) <==> Block(tag, start, brk, d) || d == q
    ensures Parted(fl, t, start, brk, live + {q}) && q !in live
  {
    hide Block;
  }

  lemma SplitFacts(h: Heap, i: nat, n: nat)
    requires Inv(h) && 1 <= i < |h.fl| && h.fl[i] < |h.size| && 1 <= n < h.size[h.fl[i]]
    ensures var p := h.fl[i];
      var q := p + h.size[p] - n;
      && p + h.size[p] <= h.brk <= |h.size| == |h.tag| && Block(h.tag, h.start, h.brk, p)
        && !Block(h.tag, h.start, h.brk, q)
  {
    hide Circular, Ordered;
    var p := h.fl[i];
    var q := p + h.size[p] - n;
    assert Block(h.tag, h.start, h.brk, p);
    assert h.tag[q] == p <==> p <= q < p + h.size[p];
  }

  lemma SplitInv(h: Heap, i: nat, n: nat)
    requires Inv(h) && Coalesced(h.size, h.fl) && 1 <= i < |h.fl| && h.fl[i] < |h.size| && 1 <= n < h.size[h.fl[i]]
    ensures h.fl[i] + h.size[h.fl[i]] <= |h.size| == |h.tag|
    ensures var g := Split(h, i, n); Inv(g) && Coalesced(g.size, g.fl) && h.fl[i] + h.size[h.fl[i]] - n !in h.live
  {
    hide Circular, Coalesced, Cut, Ordered, Tiled, Parted, Block;
    var p := h.fl[i];
    var q := p + h.size[p] - n;
    SplitFacts(h, i, n);
    SplitTiled(h.size, h.tag, h.start, h.brk, p, n);
    SplitOrdered(h.size, h.fl, h.start, i, n, q);
    SplitParted(h.fl, h.tag, Cut(h.tag, q, n), h.start, h.brk, h.live, q);
  }

  // ---- memory from sbrk: a block that nobody has freed yet ----

  function Grow(h: Heap, n: nat): Heap {
    if h.brk >= |h.size| then h
    else h.(size := h.size[h.brk := n], brk := h.brk + n, tag := Cut(h.tag, h.brk, n), live := h.live + {h.brk})
  }

  lemma GrowTiled(size: seq<nat>, tag: seq<nat>, start: nat, brk: nat, n: nat)
    requires Tiled(size, tag, start, brk) && n >= 1 && brk + n <= |size|
    ensures Tiled(size[brk := n], Cut(tag, brk, n), start, brk + n)
    ensures forall d: nat :: Block(Cut(tag, brk, n), start, brk + n, d) <==> Block(tag, start, brk, d) || d == brk
  {
    var t, z := Cut(tag, brk, n), size[brk := n];
    hide Cut;
    forall d: nat ensures Block(t, start, brk + n, d) <==> Block(tag, start, brk, d) || d == brk {}
    forall d: nat, u: nat | Block(t, start, brk + n, d) && start <= u < brk + n
      ensures t[u] == d <==> d <= u < d + z[d]
    {
      assert u < brk && Block(tag, start, brk, d) ==> (tag[u] == d <==> d <= u < d + size[d]);
    }
    forall d: nat | Block(t, start, brk + n, d) ensures z[d] >= 1 && d + z[d] <= brk + n {}
  }

  lemma GrowOrdered(size: seq<nat>, fl: seq<nat>, start: nat, brk: nat, n: nat)
    requires Ordered(size, fl, start) && brk < |size| && forall k: nat | k < |fl| :: fl[k] < brk
    ensures Ordered(size[brk := n], fl, start)
    ensures Coalesced(size, fl) ==> Coalesced(size[brk := n], fl)
  {
    var z := size[brk := n];
    assert forall k: nat | k < |fl| :: z[fl[k]] == size[fl[k]];
    forall k: nat ensures Coalesced(size, fl) ==> !Touches(z, fl, k) {
      assert Coalesced(size, fl) ==> !Touches(size, fl, k);
    }
  }

  lemma GrowParted(fl: seq<nat>, tag: seq<nat>, t: seq<nat>, start: nat, brk: nat, brk': nat, live: set<nat>, q: nat)
    requires Parted(fl, tag, start, brk, live) && !Block(tag, start, brk, q)
    requires forall d: nat :: Block(t, start, brk', d) <==> Block(tag, start, brk, d) || d == q
    ensures Parted(fl, t, start, brk', live + {q}) && q !in live
  {
    hide Block;
  }

  lemma ListBelow(h: Heap)
    requires Inv(h)
    ensures forall k: nat | k < |h.fl| :: h.fl[k] < h.brk
  {
    hide Circular;
    forall k: nat | k < |h.fl| ensures h.fl[k] < h.brk { assert k >= 1 ==> Block(h.tag, h.start, h.brk, h.fl[k]); }
  }

  lemma GrowInv(h: Heap, n: nat)
    requires Inv(h) && n >= 1 && h.brk + n <= |h.size|
    ensures Inv(Grow(h, n)) && h.brk !in h.live
    ensures Coalesced(h.size, h.fl) ==> Coalesced(Grow(h, n).size, h.fl)
  {
    hide Circular, Cut, Coalesced, Tiled, Ordered;
    ListBelow(h);
    GrowTiled(h.size, h.tag, h.start, h.brk, n);
    hide Tiled, Parted;
    GrowParted(h.fl, h.tag, Cut(h.tag, h.brk, n), h.start, h.brk, h.brk + n, h.live, h.brk);
    GrowOrdered(h.size, h.fl, h.start, h.brk, n);
  }

  // ---- free as a whole ----

  function Freed(h: Heap, i: nat, b: nat): Heap {
    var g := Insert(h, i, b);
    var m := if Touches(g.size, g.fl, i + 1) then Merge(g, i + 1) else g;
    if Touches(m.size, m.fl, i) then Merge(m, i) else m
  }

  lemma FreedUpper(h: Heap, i: nat, b: nat) returns (m: Heap)
    requires Inv(h) && Coalesced(h.size, h.fl) && b in h.live && Between(h.fl, i, b)
    ensures var g := Insert(h, i, b); m == if Touches(g.size, g.fl, i + 1) then Merge(g, i + 1) else g
    ensures Inv(m) && forall k: nat | k != i :: !Touches(m.size, m.fl, k)
  {
    hide Tiled, Parted, Circular, Ordered, Ins, Del;
    InsertInv(h, i, b);
    var g := Insert(h, i, b);
    forall k: nat | k != i && k != i + 1 ensures !Touches(g.size, g.fl, k) { InsertTouches(h.size, h.fl, i, b, k); }
    hide Insert, Coalesced, Touches, Merge, Retag;
    m := if Touches(g.size, g.fl, i + 1) then Merge(g, i + 1) else g;
    if Touches(g.size, g.fl, i + 1) {
      MergeInv(g, i + 1);
      forall k: nat | k != i ensures !Touches(m.size, m.fl, k) { MergeTouches(g.size, g.fl, g.start, i + 1, k); }
    }
  }

  lemma FreedInv(h: Heap, i: nat, b: nat)
    requires Inv(h) && Coalesced(h.size, h.fl) && b in h.live && Between(h.fl, i, b)
    ensures Inv(Freed(h, i, b)) && Coalesced(Freed(h, i, b).size, Freed(h, i, b).fl)
  {
    hide Tiled, Parted, Circular, Ordered, Ins, Del, Insert, Touches, Retag;
    var m := FreedUpper(h, i, b);
    BaseFree(m);
    if Touches(m.size, m.fl, i) {
      MergeInv(m, i);
      forall k: nat ensures !Touches(Merge(m, i).size, Merge(m, i).fl, k) { MergeTouches(m.size, m.fl, m.start, i, k); }
    }
  }

  lemma InsertAt(fl: seq<nat>, i: nat, b: nat)
    requires i < |fl|
    ensures var g := Ins(fl, i + 1, b);
      |g| == |fl| + 1 && g[i] == fl[i] && g[i + 1] == b && (i + 1 < |fl| ==> g[i + 2] == fl[i + 1])
  {}

  // base touches nothing.
  lemma BaseFree(h: Heap)
    requires Inv(h)
    ensures !Touches(h.size, h.fl, 0)
  {
    hide Tiled, Parted;
  }

  // ---- what is not touched ----

  // The units of the blocks in `blocks` hold what they held, and still belong to the same blocks.
  ghost predicate Same(h: Heap, h': Heap, blocks: set<nat>) {
    && |h'.ptr| == |h.ptr| && |h'.size| == |h.size| && |h'.tag| == |h.tag| && h'.start == h.start && h'.brk >= h.brk
    && forall u: nat | h.start <= u < h.brk && u < |h.ptr| && u < |h.size| && u < |h.tag| && h.tag[u] in blocks ::
      h'.ptr[u] == h.ptr[u] && h'.size[u] == h.size[u] && h'.tag[u] == h.tag[u]
  }

  lemma SameTrans(a: Heap, b: Heap, c: Heap, blocks: set<nat>)
    requires Same(a, b, blocks) && Same(b, c, blocks)
    ensures Same(a, c, blocks)
  {}

  lemma FreeHeader(h: Heap, k: nat)
    requires Inv(h) && k < |h.fl|
    ensures h.fl[k] < |h.ptr|
      && (h.fl[k] < h.start || (h.fl[k] < |h.tag| && h.tag[h.fl[k]] == h.fl[k] && h.fl[k] !in h.live))
  {
    hide Tiled;
    assert k >= 1 ==> Block(h.tag, h.start, h.brk, h.fl[k]);
  }

  lemma InsertSame(h: Heap, i: nat, b: nat)
    requires Inv(h) && b in h.live && i < |h.fl|
    ensures Same(h, Insert(h, i, b), h.live - {b})
  {
    hide Inv, Ins;
    FreeHeader(h, i);
    LiveTagged(h);
  }

  lemma MergeSame(h: Heap, i: nat)
    requires Inv(h) && i + 1 < |h.fl|
    ensures Same(h, Merge(h, i), h.live)
  {
    hide Inv, Del, Retag;
    FreeHeader(h, i);
    FreeHeader(h, i + 1);
    LiveTagged(h);
  }

  lemma LiveTagged(h: Heap)
    requires Inv(h)
    ensures forall b: nat | b in h.live ::
      h.start <= b < h.brk <= |h.tag| == |h.size| == |h.ptr| && h.tag[b] == b && h.size[b] >= 1
      && b + h.size[b] <= h.brk
    ensures 1 <= h.start <= h.brk <= |h.tag|
  {
    hide Circular, Ordered;
  }

  // free leaves every other block in use alone.
  lemma FreedSame(h: Heap, i: nat, b: nat)
    requires Inv(h) && Coalesced(h.size, h.fl) && b in h.live && Between(h.fl, i, b)
    ensures Same(h, Freed(h, i, b), h.live - {b}) && Freed(h, i, b).live == h.live - {b} && Freed(h, i, b).brk == h.brk
  {
    hide Tiled, Parted, Circular, Ordered, Ins, Del, Same, Coalesced, Touches, Retag;
    InsertInv(h, i, b);
    InsertSame(h, i, b);
    var g := Insert(h, i, b);
    var m := FreedUpper(h, i, b);
    if Touches(g.size, g.fl, i + 1) {
      TouchesIs(g.size, g.fl, i + 1);
      MergeSame(g, i + 1);
      SameTrans(h, g, m, h.live - {b});
    }
    if Touches(m.size, m.fl, i) {
      TouchesIs(m.size, m.fl, i);
      MergeSame(m, i);
      SameTrans(h, m, Merge(m, i), h.live - {b});
    }
  }

  lemma TouchesIs(size: seq<nat>, fl: seq<nat>, i: nat)
    requires Touches(size, fl, i)
    ensures i + 1 < |fl|
  {}

  // The freed block is now part of a free one, at place i or i + 1 of the list.
  lemma FreedFits(h: Heap, i: nat, b: nat) returns (k: nat)
    requires Inv(h) && Coalesced(h.size, h.fl) && b in h.live && Between(h.fl, i, b)
    ensures var g := Freed(h, i, b);
      && b < |h.size| && i <= k <= i + 1 && k < |g.fl| && g.fl[k] < |g.size| && g.size[g.fl[k]] >= h.size[b]
      && g.fl[i] == h.fl[i]
  {
    hide Tiled, Parted, Circular, Ordered, Del, Coalesced, Retag;
    InsertInv(h, i, b);
    var g := Insert(h, i, b);
    InsertAt(h.fl, i, b);
    var m := FreedUpper(h, i, b);
    hide Ins;
    UpperFits(g, m, i, b, h.size[b]);
    if Touches(m.size, m.fl, i) {
      LowerFits(m, i, h.size[b]);
      k := i;
    } else {
      k := i + 1;
    }
  }

  lemma UpperFits(g: Heap, m: Heap, i: nat, b: nat, n: nat)
    requires i + 1 < |g.fl| && g.fl[i + 1] == b && b < |g.size| == |g.ptr| && g.size[b] >= n && g.fl[i] < |g.size|
    requires m == if Touches(g.size, g.fl, i + 1) then Merge(g, i + 1) else g
    ensures i + 1 < |m.fl| && m.fl[i + 1] == b && b < |m.size| && m.size[b] >= n && m.fl[i] == g.fl[i]
  {}

  lemma LowerFits(m: Heap, i: nat, n: nat)
    requires Inv(m) && Touches(m.size, m.fl, i) && i + 1 < |m.fl| && m.fl[i + 1] < |m.size| && m.size[m.fl[i + 1]] >= n
    ensures i < |Merge(m, i).fl| && Merge(m, i).fl[i] == m.fl[i] < |m.size| && Merge(m, i).size[m.fl[i]] >= n
  {
    hide Tiled, Parted;
  }

  lemma TakeSame(h: Heap, i: nat)
    requires Inv(h) && 1 <= i < |h.fl|
    ensures Same(h, Take(h, i), h.live)
  {
    hide Inv, Del;
    FreeHeader(h, i - 1);
    FreeHeader(h, i);
  }

  lemma SplitSame(h: Heap, i: nat, n: nat)
    requires Inv(h) && 1 <= i < |h.fl| && h.fl[i] < |h.size| && 1 <= n < h.size[h.fl[i]]
    ensures Same(h, Split(h, i, n), h.live)
  {
    hide Inv, Cut;
    SplitFacts(h, i, n);
    FreeHeader(h, i);
    FreeUnits(h, i);
    LiveTagged(h);
  }

  lemma FreeUnits(h: Heap, i: nat)
    requires Inv(h) && 1 <= i < |h.fl|
    ensures h.fl[i] < |h.size| && h.fl[i] + h.size[h.fl[i]] <= h.brk <= |h.tag|
    ensures forall u: nat | h.fl[i] <= u < h.fl[i] + h.size[h.fl[i]] :: h.tag[u] == h.fl[i]
  {
    hide Circular, Ordered;
    assert Block(h.tag, h.start, h.brk, h.fl[i]);
  }

  lemma GrowSame(h: Heap, n: nat)
    requires Inv(h)
    ensures Same(h, Grow(h, n), h.live)
  {
    hide Inv, Cut;
    LiveTagged(h);
  }
}

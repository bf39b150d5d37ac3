// user/ulib/stdlib.c: malloc and free over a circular list of free blocks, relinked in place.
module Malloc {
  import opened HeapBlocks

  const MORE := 4096
  const NULL := -1
  const UNIT := 8    // sizeof(Header)

  // Steps round the list from place a to place b.
  function Dist(a: nat, b: nat, n: nat): (d: nat)
    requires a < n && b < n
    ensures d < n && (d == 0 <==> a == b)
  {
    if b >= a then b - a else b + n - a
  }

  function Step(a: nat, n: nat): (c: nat)
    requires a < n
    ensures c < n
  {
    if a + 1 < n then a + 1 else 0
  }

  // Where the search of free stops: the block at b belongs between the one at p and its successor q.
  predicate Here(p: nat, q: nat, b: nat) { (b > p && b < q) || (p >= q && (b > p || b < q)) }

  // Units a request takes: the payload, rounded up, and the header.
  function Units(nbytes: nat): (n: nat)
    ensures n >= 1 && UNIT * (n - 1) >= nbytes > UNIT * (n - 2)
  {
    (nbytes + UNIT - 1) / UNIT + 1
  }

  class Allocator {
    const ptr: array<nat>
    const size: array<nat>
    var freep: int           // address of a header, or NULL before the first call
    var brk: nat             // old_brk of sbrk, in units
    ghost var h: Heap

    // Memory of `units` units, of which those from `start` on can be had from sbrk.
    constructor (units: nat, start: nat)
      requires 1 <= start <= units
      ensures Valid() && h.live == {} && h.brk == h.start == start && freep == NULL && fresh(ptr) && fresh(size)
    {
      ptr := new nat[units](_ => 0);
      size := new nat[units](_ => 0);
      freep, brk := NULL, start;
      new;
      h := Heap(ptr[..], size[..], start, start, [BASE], seq(units, i => i), {});
      EmptyInv(h);
    }

    ghost predicate Valid()
      reads this, ptr, size
    {
      && ptr != size && ptr[..] == h.ptr && size[..] == h.size && brk == h.brk
      && Inv(h) && Coalesced(h.size, h.fl)
      && (if freep == NULL then h.fl == [BASE] && h.brk == h.start else freep in h.fl)
    }

    // The place on the list behind which block b belongs.
    lemma Place(b: nat) returns (k: nat)
      requires Valid() && b in h.live
      ensures Between(h.fl, k, b)
    {
      hide Circular, Tiled, Parted, Coalesced;
      Clear(h, b, 0);
      k := 0;
      while k + 1 < |h.fl| && h.fl[k + 1] < b
        invariant k < |h.fl| && h.fl[k] < b
      {
        k := k + 1;
      }
      if k + 1 < |h.fl| { Clear(h, b, k + 1); }
    }

    // The place on the list the freed block belongs behind, looked for from freep on.
    method FindPlace(bp: nat) returns (p: nat, ghost k: nat)
      requires Valid() && bp in h.live && freep != NULL
      ensures Between(h.fl, k, bp) && p == h.fl[k]
    {
      hide Tiled, Parted, Coalesced, Ordered, Circular, Dist, Step, Here;
      ListOrder(h);
      ListInMemory(h.ptr, h.fl);
      hide Inv;
      k := Place(bp);
      p := freep;
      ghost var j: nat :| j < |h.fl| && h.fl[j] == p;
      WalkStep(h.ptr, h.fl, j, k, bp);
      while !Here(p, ptr[p], bp)
        invariant j < |h.fl| && p == h.fl[j] && ptr[p] < ptr.Length && (Here(p, ptr[p], bp) <==> j == k)
        decreases Dist(j, k, |h.fl|)
      {
        WalkStep(h.ptr, h.fl, j, k, bp);
        p := ptr[p];
        j := Step(j, |h.fl|);
        WalkStep(h.ptr, h.fl, j, k, bp);
      }
    }

    // free, given the address of the header
    method Free(bp: nat)
      requires Valid() && bp in h.live && freep != NULL
      modifies this, ptr, size
      ensures Valid() && freep != NULL && h.live == old(h.live) - {bp} && h.brk == old(h.brk)
      ensures Same(old(h), h, h.live)
      ensures exists k: nat ::
        k < |h.fl| && h.fl[k] < |h.size| && bp < |old(h).size| && h.size[h.fl[k]] >= old(h).size[bp]
    {
      hide Tiled, Parted, Circular, Ordered, Coalesced, Same, Freed;
      ghost var g := h;
      var p, k := FindPlace(bp);
      FreedInv(g, k, bp);
      FreedSame(g, k, bp);
      FreedMemory(g, k, bp);
      ghost var place := FreedFits(g, k, bp);
      Clear(g, bp, k);
      ListInMemory(g.ptr, g.fl);
      if bp + size[bp] == ptr[p] {
        size[bp] := size[bp] + size[ptr[p]];
        ptr[bp] := ptr[ptr[p]];
      } else {
        ptr[bp] := ptr[p];
      }
      if p + size[p] == bp {
        size[p] := size[p] + size[bp];
        ptr[p] := ptr[bp];
      } else {
        ptr[p] := bp;
      }
      freep := p;
      h := Freed(g, k, bp);
    }

    // sbrk: the memory ends at the last unit.
    method Sbrk(n: nat) returns (p: int)
      modifies `brk
      ensures if old(brk) + n <= size.Length then p == old(brk) && brk == old(brk) + n else p == NULL && brk == old(brk)
    {
      if brk + n > size.Length { return NULL; }
      p := brk;
      brk := brk + n;
    }

    method Morecore(nunits: nat) returns (p: int)
      requires Valid() && freep != NULL
      modifies this, ptr, size
      ensures Valid() && h.live == old(h.live) && p == (if old(brk) + Chunk(nunits) <= size.Length then freep else NULL)
      ensures p == NULL ==> h == old(h) && freep == old(freep)
      ensures p != NULL ==> brk == old(brk) + Chunk(nunits) && Same(old(h), h, h.live)
      ensures p != NULL ==> exists k: nat :: k < |h.fl| && h.fl[k] < |h.size| && h.size[h.fl[k]] >= nunits
    {
      hide Tiled, Parted, Circular, Ordered, Coalesced, Same, Inv;
      var nu := if nunits < MORE then MORE else nunits;
      var hp := Sbrk(nu);
      if hp == NULL { return NULL; }
      ghost var g := h;
      GrowInv(g, nu);
      GrowSame(g, nu);
      GrowIs(g, nu);
      size[hp] := nu;
      h := Grow(g, nu);
      ghost var m := h;
      Free(hp);
      assert m.live - {hp} == g.live;
      SameTrans(g, m, h, g.live);
      return freep;
    }

    lemma BaseAlone()
      requires Valid() && freep == NULL
      ensures ptr.Length >= 1 && size.Length >= 1 && h.ptr[BASE] == BASE && h.size[BASE] == 0 && h.fl == [BASE]
    {
      hide Tiled, Parted, Coalesced;
      assert h.ptr[h.fl[0]] == Next(h.fl, 0);
    }

    // The i-th free block is large enough: all of it, or its last nunits units.
    method Carve(prevp: nat, p: nat, nunits: nat, ghost i: nat) returns (r: nat)
      requires Valid() && freep != NULL && 1 <= i < |h.fl| && p == h.fl[i] && prevp == h.fl[i - 1]
      requires p < size.Length && size[p] >= nunits >= 1
      modifies this, ptr, size
      ensures Valid() && freep != NULL && brk == old(brk) && Same(old(h), h, old(h).live)
      ensures r >= 1 && r - 1 !in old(h).live && h.live == old(h).live + {r - 1}
      ensures r - 1 < |h.size| && h.size[r - 1] == nunits
    {
      hide Tiled, Parted, Circular, Ordered, Coalesced, Same, Inv;
      HeapInMemory(h);
      ghost var g := h;
      var q := p;
      if size[p] == nunits {
        TakeInv(g, i);
        TakeSame(g, i);
        TakeIs(g, i);
        ptr[prevp] := ptr[p];
        h := Take(g, i);
      } else {
        SplitInv(g, i, nunits);
        SplitSame(g, i, nunits);
        SplitIs(g, i, nunits);
        size[p] := size[p] - nunits;
        q := q + size[p];
        size[q] := nunits;
        h := Split(g, i, nunits);
      }
      freep := prevp;
      return q + 1;
    }

    // More memory, when every free block is too small; then one of them, now at place want, is not.
    method Extend(nunits: nat) returns (p: int, ghost f: nat, ghost want: nat)
      requires Valid() && freep != NULL
      modifies this, ptr, size
      ensures Valid() && freep != NULL && h.live == old(h).live
        && p == (if old(brk) + Chunk(nunits) <= size.Length then freep else NULL)
      ensures p == NULL ==> h == old(h) && freep == old(freep) && f == 0 && want == 0
      ensures f < |h.fl| && want < |h.fl|
      ensures p != NULL ==> brk == old(brk) + Chunk(nunits) && Same(old(h), h, h.live)
      ensures p != NULL ==> p == h.fl[f] && h.fl[want] < |h.size| && h.size[h.fl[want]] >= nunits
      ensures p != NULL ==> Dist(Step(f, |h.fl|), want, |h.fl|) <= Dist(Step(f, |h.fl|), f, |h.fl|)
    {
      hide Tiled, Parted, Circular, Ordered, Coalesced, Same, Inv, Dist, Step, Chunk;
      p := Morecore(nunits);
      HeapInMemory(h);
      f, want := 0, 0;
      if p == NULL { return; }
      f :| f < |h.fl| && h.fl[f] == freep;
      want :| want < |h.fl| && h.fl[want] < |h.size| && h.size[h.fl[want]] >= nunits;
      LastStop(f, want, |h.fl|);
    }

    // A program may write anything into the memory it was given: into no header, that is.
    method UserWrite(b: nat, u: nat, x: nat, y: nat)
      requires Valid() && b in h.live && b < |h.size| && b < u < b + h.size[b]
      modifies this`h, ptr, size
      ensures Valid() && h.live == old(h).live && Same(old(h), h, h.live - {b})
      ensures h.size[b] == old(h).size[b] && h.tag == old(h).tag && h.fl == old(h).fl
    {
      hide Circular, Tiled, Ordered, Parted;
      Payload(h, b, u, x, y);
      ptr[u] := x;
      size[u] := y;
      h := h.(ptr := ptr[..], size := size[..]);
    }

    // The loop of malloc: the next free block from freep on that is large enough. When it comes back to
    // freep it asks for more memory, once; the block it then gets, or has made larger, is found in the
    // next turn.
    method Search(nunits: nat) returns (prevp: nat, p: int, ghost pos: nat)
      requires Valid() && freep != NULL && nunits >= 1
      modifies this, ptr, size
      ensures Valid() && freep != NULL && h.live == old(h).live && Same(old(h), h, h.live)
      ensures p == NULL <==> NoneFits(old(h), nunits) && old(brk) + Chunk(nunits) > size.Length
      ensures p == NULL ==> h == old(h)
      ensures p != NULL ==>
        1 <= pos < |h.fl| && p == h.fl[pos] < size.Length && prevp == h.fl[pos - 1] && size[p] >= nunits
      ensures brk == if p != NULL && NoneFits(old(h), nunits) then old(brk) + Chunk(nunits) else old(brk)
    {
      hide Tiled, Parted, Circular, Ordered, Coalesced, Same, Inv, Dist, Step, Units, NoneFits, SmallBefore, Chunk;
      SameRefl(h);
      HeapInMemory(h);
      prevp := freep;
      ghost var f: nat :| f < |h.fl| && h.fl[f] == freep;
      Walk(h, f);
      p := ptr[prevp];
      ghost var prev: nat, want: nat, grown, h0 := f, f, false, h;
      pos := Step(f, |h.fl|);
      SmallNone(h, f, nunits);
      while size[p] < nunits
        invariant Valid() && freep != NULL && f < |h.fl| && prev < |h.fl| && pos < |h.fl| && want < |h.fl|
        invariant freep == h.fl[f] && prevp == h.fl[prev] && p == h.fl[pos] < size.Length && pos == Step(prev, |h.fl|)
        invariant h.live == h0.live && Same(h0, h, h0.live)
        invariant !grown ==> want == f && h == h0 && brk == old(brk) && SmallBefore(h, f, pos, nunits)
        invariant grown ==> NoneFits(h0, nunits) && brk == old(brk) + Chunk(nunits) <= size.Length
        invariant grown ==>
          h.fl[want] < |h.size| && h.size[h.fl[want]] >= nunits && Dist(pos, want, |h.fl|) <= Dist(pos, f, |h.fl|)
        decreases !grown, Dist(pos, want, |h.fl|)
      {
        if p == freep {
          SameSpot(h, pos, f);
          assert !grown by { assert Dist(pos, f, |h.fl|) == 0; }
          AllSmall(h, f, nunits);
          p, f, want := Extend(nunits);
          if p == NULL { return; }
          pos, grown := f, true;
        } else {
          NextStep(pos, want, f, |h.fl|);
          SmallNext(h, f, pos, nunits);
        }
        Walk(h, pos);
        prevp := p;
        prev := pos;
        p := ptr[p];
        pos := Step(pos, |h.fl|);
      }
      NotBase(h, prev, pos, nunits);
      FitsHere(h, pos, nunits);
    }

    method Malloc(nbytes: nat) returns (r: int)
      requires Valid()
      modifies this, ptr, size
      ensures Valid() && freep != NULL
      ensures Same(old(h), h, old(h).live)
      ensures r == NULL <==> NoneFits(old(h), Units(nbytes)) && old(brk) + Chunk(Units(nbytes)) > size.Length
      ensures r == NULL ==> h == old(h)
      ensures r != NULL ==> r >= 1 && r - 1 !in old(h).live && h.live == old(h).live + {r - 1}
      ensures r != NULL ==> r - 1 < |h.size| && h.size[r - 1] == Units(nbytes)
      ensures brk == if r != NULL && NoneFits(old(h), Units(nbytes)) then old(brk) + Chunk(Units(nbytes)) else old(brk)
    {
      hide Tiled, Parted, Circular, Ordered, Coalesced, Same, Inv, Dist, Step, Units, NoneFits, SmallBefore, Chunk;
      var nunits := (nbytes + UNIT - 1) / UNIT + 1;
      UnitsIs(nbytes);
      if freep == NULL {
        BaseAlone();
        ptr[BASE] := BASE;
        freep := BASE;
        size[BASE] := 0;
      }
      ghost var h0 := h;
      var prevp, p, pos := Search(nunits);
      if p == NULL { return NULL; }
      ghost var h1 := h;
      r := Carve(prevp, p, nunits, pos);
      SameTrans(h0, h1, h, h0.live);
    }
  }

  // Walking the list: the search stops at place k and nowhere else.
  lemma WalkStep(ptr: seq<nat>, fl: seq<nat>, j: nat, k: nat, bp: nat)
    requires Circular(ptr, fl)
      && (forall i: nat, l: nat | i < l < |fl| :: fl[i] < fl[l]) && Between(fl, k, bp) && j < |fl|
    ensures fl[j] < |ptr| && ptr[fl[j]] < |ptr| && ptr[fl[j]] == fl[Step(j, |fl|)]
    ensures Here(fl[j], ptr[fl[j]], bp) <==> j == k
    ensures j != k ==> Dist(Step(j, |fl|), k, |fl|) < Dist(j, k, |fl|)
  {
    assert ptr[fl[j]] == Next(fl, j);
    assert j < k ==> fl[j + 1] <= fl[k];
    assert j > k ==> fl[k + 1] <= fl[j];
  }

  lemma InsertMemory(h: Heap, i: nat, b: nat)
    requires |h.ptr| == |h.size| && Circular(h.ptr, h.fl) && i < |h.fl| && b < |h.ptr|
    ensures h.fl[i] < |h.ptr| && h.ptr[h.fl[i]] < |h.ptr|
      && h.ptr[h.fl[i]] == if i + 1 < |h.fl| then h.fl[i + 1] else BASE
    ensures var g := Insert(h, i, b);
      && g.ptr == h.ptr[b := h.ptr[h.fl[i]]][h.fl[i] := b] && g.size == h.size && g.fl == Ins(h.fl, i + 1, b)
  {
    assert h.ptr[h.fl[i]] == Next(h.fl, i);
  }

  // After the first half of free.
  lemma UpperMemory(h: Heap, i: nat, b: nat)
    requires |h.ptr| == |h.size| && Circular(h.ptr, h.fl) && i < |h.fl| && b < |h.ptr| && 1 <= b && h.fl[i] != b
    requires (i + 1 < |h.fl| ==> h.fl[i + 1] != b && h.fl[i + 1] != h.fl[i])
    ensures h.fl[i] < |h.ptr| && h.ptr[h.fl[i]] < |h.ptr|
    ensures var p, next := h.fl[i], h.ptr[h.fl[i]];
      var g, up := Insert(h, i, b), b + h.size[b] == next;
      var m := if Touches(g.size, g.fl, i + 1) then Merge(g, i + 1) else g;
      && m.size == (if up then h.size[b := h.size[b] + h.size[next]] else h.size)
      && m.ptr == h.ptr[b := if up then h.ptr[next] else next][p := b]
      && i + 1 < |m.fl| && m.fl[i] == p && m.fl[i + 1] == b
  {
    hide Circular, Ins, Insert, Merge, Del, Retag;
    InsertAt(h.fl, i, b);
    InsertMemory(h, i, b);
    var g, next := Insert(h, i, b), h.ptr[h.fl[i]];
    if Touches(g.size, g.fl, i + 1) {
      MergeMemory(g, i + 1);
      assert g.ptr[next] == h.ptr[next];
    }
  }

  lemma MergeMemory(g: Heap, i: nat)
    requires |g.ptr| == |g.size| && i + 1 < |g.fl| && g.fl[i] < |g.ptr| && g.fl[i + 1] < |g.ptr|
    ensures var m, b, c := Merge(g, i), g.fl[i], g.fl[i + 1];
      && m.ptr == g.ptr[b := g.ptr[c]] && m.size == g.size[b := g.size[b] + g.size[c]]
      && |m.fl| == |g.fl| - 1 && forall k: nat | k <= i :: m.fl[k] == g.fl[k]
  {
    hide Retag;
  }

  // The memory after free, as the code computes it.
  lemma FreedMemory(h: Heap, i: nat, b: nat)
    requires Inv(h) && Coalesced(h.size, h.fl) && b in h.live && Between(h.fl, i, b)
    ensures b < |h.ptr| == |h.size| && h.fl[i] < |h.ptr| && h.ptr[h.fl[i]] < |h.ptr| && h.fl[i] != b
    ensures var p, next := h.fl[i], h.ptr[h.fl[i]];
      var up := b + h.size[b] == next;
      var size1 := if up then h.size[b := h.size[b] + h.size[next]] else h.size;
      var ptr1 := h.ptr[b := if up then h.ptr[next] else next];
      var down := p + size1[p] == b;
      && Freed(h, i, b).size == (if down then size1[p := size1[p] + size1[b]] else size1)
      && Freed(h, i, b).ptr == (if down then ptr1[p := ptr1[b]] else ptr1[p := b])
  {
    hide Tiled, Parted, Ordered, Coalesced, Circular, Insert, Ins, Del, Retag;
    ListOrder(h);
    Clear(h, b, i);
    LiveTagged(h);
    hide Inv;
    UpperMemory(h, i, b);
    var g := Insert(h, i, b);
    var m := if Touches(g.size, g.fl, i + 1) then Merge(g, i + 1) else g;
    LowerMemory(m, i);
  }

  lemma LowerMemory(m: Heap, i: nat)
    requires |m.ptr| == |m.size| && i + 1 < |m.fl| && m.fl[i] < |m.ptr| && m.fl[i + 1] < |m.ptr|
    ensures var p, b := m.fl[i], m.fl[i + 1];
      var r := if Touches(m.size, m.fl, i) then Merge(m, i) else m;
      && r.size == (if p + m.size[p] == b then m.size[p := m.size[p] + m.size[b]] else m.size)
      && r.ptr == (if p + m.size[p] == b then m.ptr[p := m.ptr[b]] else m.ptr)
  {}

  // What stands in the middle of a block in use means nothing to the allocator.
  lemma Payload(h: Heap, b: nat, u: nat, x: nat, y: nat)
    requires Inv(h) && Coalesced(h.size, h.fl) && b in h.live && b < |h.size| && b < u < b + h.size[b]
    ensures u < |h.ptr| == |h.size|
    ensures var g := h.(ptr := h.ptr[u := x], size := h.size[u := y]);
      Inv(g) && Coalesced(g.size, g.fl) && Same(h, g, h.live - {b})
  {
    hide Circular, Ordered, Tiled, Parted, Coalesced;
    LiveTagged(h);
    forall k: nat | k < |h.fl| ensures h.fl[k] != u { Clear(h, b, k); }
    HeapInMemory(h);
    NoBlockInside(h, b, u);
    PayloadCircular(h.ptr, h.fl, u, x);
    PayloadOrdered(h.size, h.fl, h.start, u, y);
    PayloadTiled(h.size, h.tag, h.start, h.brk, u, y);
  }

  lemma NoBlockInside(h: Heap, b: nat, u: nat)
    requires Inv(h) && b in h.live && b < |h.size| && b < u < b + h.size[b]
    ensures h.start <= u < h.brk <= |h.tag| && h.tag[u] == b && !Block(h.tag, h.start, h.brk, u)
  {
    hide Circular, Ordered;
    assert Block(h.tag, h.start, h.brk, b);
  }

  lemma PayloadCircular(ptr: seq<nat>, fl: seq<nat>, u: nat, x: nat)
    requires Circular(ptr, fl) && u < |ptr| && u !in fl
    ensures Circular(ptr[u := x], fl)
  {}

  lemma PayloadOrdered(size: seq<nat>, fl: seq<nat>, start: nat, u: nat, y: nat)
    requires Ordered(size, fl, start) && u < |size| && u !in fl
    ensures Ordered(size[u := y], fl, start)
    ensures Coalesced(size, fl) ==> Coalesced(size[u := y], fl)
  {
    var z := size[u := y];
    forall k: nat ensures Coalesced(size, fl) ==> !Touches(z, fl, k) {
      assert Coalesced(size, fl) ==> !Touches(size, fl, k);
    }
  }

  lemma PayloadTiled(size: seq<nat>, tag: seq<nat>, start: nat, brk: nat, u: nat, y: nat)
    requires Tiled(size, tag, start, brk) && u < |size| && !Block(tag, start, brk, u)
    ensures Tiled(size[u := y], tag, start, brk)
  {}

  // Free and used units together are exactly what sbrk has given out, each in one block only.
  lemma EveryUnit(h: Heap, u: nat) returns (b: nat)
    requires Inv(h) && h.start <= u < h.brk
    ensures b < |h.size| && b <= u < b + h.size[b] && (b in h.live <==> b !in h.fl[1..])
    ensures forall c: nat | (c in h.live || c in h.fl[1..]) && c < |h.size| && c <= u < c + h.size[c] :: c == b
  {
    hide Circular, Ordered;
    b := h.tag[u];
    assert Block(h.tag, h.start, h.brk, b);
    forall c: nat | (c in h.live || c in h.fl[1..]) && c < |h.size| && c <= u < c + h.size[c] ensures c == b {
      if c !in h.live { var i: nat :| i < |h.fl[1..]| && h.fl[1..][i] == c; assert h.fl[i + 1] == c; }
      assert Block(h.tag, h.start, h.brk, c);
    }
  }

  lemma UnitsIs(nbytes: nat)
    ensures (nbytes + UNIT - 1) / UNIT + 1 == Units(nbytes)
  {}

  // What morecore asks for.
  function Chunk(nunits: nat): nat { if nunits < MORE then MORE else nunits }

  lemma GrowIs(h: Heap, n: nat)
    requires h.brk < |h.size|
    ensures var g := Grow(h, n);
      g.ptr == h.ptr && g.size == h.size[h.brk := n] && g.live == h.live + {h.brk} && g.brk == h.brk + n && g.fl == h.fl
  {}

  // No free block has n units.
  ghost predicate NoneFits(h: Heap, n: nat) {
    forall i: nat | i < |h.fl| && h.fl[i] < |h.size| :: h.size[h.fl[i]] < n
  }

  lemma HeapInMemory(h: Heap)
    requires Inv(h)
    ensures |h.ptr| == |h.size| && h.fl != [] && h.fl[0] == BASE && forall i: nat | i < |h.fl| :: h.fl[i] < |h.ptr|
  {
    ListInMemory(h.ptr, h.fl);
  }

  lemma TakeIs(h: Heap, i: nat)
    requires 1 <= i < |h.fl| && h.fl[i] < |h.ptr| && h.fl[i - 1] < |h.ptr|
    ensures var g := Take(h, i);
      g.ptr == h.ptr[h.fl[i - 1] := h.ptr[h.fl[i]]] && g.size == h.size && g.live == h.live + {h.fl[i]}
        && g.brk == h.brk && h.fl[i - 1] in g.fl
  {
    assert Take(h, i).fl[i - 1] == h.fl[i - 1];
  }

  lemma SplitIs(h: Heap, i: nat, n: nat)
    requires i < |h.fl| && h.fl[i] < |h.size| && 1 <= n < h.size[h.fl[i]] && h.fl[i] + h.size[h.fl[i]] <= |h.size|
    ensures var g, p := Split(h, i, n), h.fl[i];
      var q := p + h.size[p] - n;
      g.ptr == h.ptr && g.size == h.size[p := h.size[p] - n][q := n] && g.live == h.live + {q} && g.brk == h.brk
        && g.fl == h.fl
  {}

  lemma SameRefl(h: Heap)
    ensures Same(h, h, h.live)
  {}

  lemma Walk(h: Heap, j: nat)
    requires Inv(h) && j < |h.fl|
    ensures h.fl[j] < |h.ptr| == |h.size| && h.ptr[h.fl[j]] == h.fl[Step(j, |h.fl|)] < |h.ptr|
  {
    hide Tiled, Parted, Ordered;
    assert h.ptr[h.fl[j]] == Next(h.fl, j);
  }

  lemma SameSpot(h: Heap, i: nat, j: nat)
    requires Inv(h) && i < |h.fl| && j < |h.fl| && h.fl[i] == h.fl[j]
    ensures i == j
  {
    ListOrder(h);
    hide Inv;
  }

  // The free blocks met on the way from place f, not yet counting place pos, are too small.
  ghost predicate SmallBefore(h: Heap, f: nat, pos: nat, n: nat)
    requires f < |h.fl| && pos < |h.fl|
  {
    forall i: nat | i < |h.fl| && h.fl[i] < |h.size|
      && Dist(Step(f, |h.fl|), i, |h.fl|) < Dist(Step(f, |h.fl|), pos, |h.fl|) ::
      h.size[h.fl[i]] < n
  }

  lemma SmallNext(h: Heap, f: nat, pos: nat, n: nat)
    requires f < |h.fl| && pos < |h.fl| && pos != f && h.fl[pos] < |h.size| && h.size[h.fl[pos]] < n
    ensures SmallBefore(h, f, pos, n) ==> SmallBefore(h, f, Step(pos, |h.fl|), n)
  {}

  lemma SmallNone(h: Heap, f: nat, n: nat)
    requires f < |h.fl|
    ensures SmallBefore(h, f, Step(f, |h.fl|), n)
  {}

  lemma AllSmall(h: Heap, f: nat, n: nat)
    requires f < |h.fl| && h.fl[f] < |h.size| && h.size[h.fl[f]] < n && SmallBefore(h, f, f, n)
    ensures NoneFits(h, n)
  {}

  lemma NextStep(pos: nat, want: nat, f: nat, n: nat)
    requires pos < n && want < n && f < n && pos != f
    ensures pos != want ==> Dist(Step(pos, n), want, n) == Dist(pos, want, n) - 1
    ensures Dist(Step(pos, n), f, n) == Dist(pos, f, n) - 1
  {}

  lemma LastStop(f: nat, want: nat, n: nat)
    requires f < n && want < n
    ensures Dist(Step(f, n), want, n) <= Dist(Step(f, n), f, n)
  {}

  // base has no room, so a block that fits is never the first.
  lemma NotBase(h: Heap, prev: nat, pos: nat, n: nat)
    requires Inv(h) && prev < |h.fl| && pos == Step(prev, |h.fl|) && h.fl[pos] < |h.size| && h.size[h.fl[pos]] >= n >= 1
    ensures 1 <= pos == prev + 1
  {
    hide Tiled, Parted, Circular;
  }

  lemma FitsHere(h: Heap, pos: nat, n: nat)
    requires pos < |h.fl| && h.fl[pos] < |h.size| && h.size[h.fl[pos]] >= n
    ensures !NoneFits(h, n)
  {}

  lemma EmptyInv(h: Heap)
    requires |h.ptr| == |h.size| == |h.tag| && 1 <= h.start == h.brk <= |h.size| && h.fl == [BASE] && h.live == {}
    requires forall i | 0 <= i < |h.ptr| :: h.ptr[i] == 0 && h.size[i] == 0
    ensures Inv(h) && Coalesced(h.size, h.fl)
  {}

  lemma ListOrder(h: Heap)
    requires Inv(h)
    ensures forall i: nat, j: nat | i < j < |h.fl| :: h.fl[i] < h.fl[j]
  {
    hide Tiled, Circular, Parted;
  }
}

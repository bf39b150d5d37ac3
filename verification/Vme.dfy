// kernel/src/vme.c, lines 35-206: the page allocator, address spaces, and the copy that fork makes.
module Vme {
  import opened Bytes
  import opened Paging
  import opened Inodes

  class Vm {
    const mem: array<Page>
    var freeList: u32        // free_page_list, as an address
    ghost var free: seq<nat>
    ghost var own: map<nat, Owner>

    // init_page: all memory above the kernel is free, one page behind the other.
    constructor ()
      ensures Valid() && own == map[] && fresh(mem)
    {
      mem := new Page[PHY_FRAME](_ => ZeroPage());
      freeList := KER_FRAME * PGSIZE;
      own := map[];
      free := seq(PHY_FRAME - KER_FRAME, k => KER_FRAME + k);
      new;
      for f := KER_FRAME to PHY_FRAME
        invariant forall k | KER_FRAME <= k < f :: mem[k][0] == (k + 1) * PGSIZE
        modifies mem
      {
        mem[f] := mem[f][0 := (f + 1) * PGSIZE];
      }
      mem[PHY_FRAME - 1] := mem[PHY_FRAME - 1][0 := 0];
      FreshChain(mem[..], KER_FRAME);
      assert free == seq(PHY_FRAME - KER_FRAME, k => KER_FRAME + k);
    }

    ghost predicate Valid()
      reads this, mem
    {
      mem.Length == PHY_FRAME && Inv(mem[..], freeList, free, own)
    }

    // The frame user page v of directory d is mapped to, -1 if none; and its words.
    ghost function At(d: nat, v: nat): int
      requires mem.Length == PHY_FRAME && d < PHY_FRAME && v < PAGES
      reads this, mem
    {
      Lookup(mem[..], d, v)
    }

    ghost function Words(d: nat, v: nat): Page
      requires mem.Length == PHY_FRAME && d < PHY_FRAME && v < PAGES
      reads this, mem
    {
      PageAt(mem[..], d, v)
    }

    method Kalloc() returns (r: Outcome<nat>)
      requires Valid()
      modifies this`freeList, this`free
      ensures Valid() && (r.Abort? <==> old(free) == [])
      ensures r.Abort? ==> free == []
      ensures r.Done? ==> KER_FRAME <= r.value < PHY_FRAME && r.value == old(free)[0] && r.value !in own
      ensures r.Done? ==> free == old(free)[1..] && r.value !in free
    {
      hide Down, Up;
      if freeList == 0 { return Abort; }
      var page := freeList / PGSIZE;
      freeList := mem[page][0];
      free := free[1..];
      return Done(page);
    }

    method Kfree(page: nat)
      requires Valid() && KER_FRAME <= page < PHY_FRAME && page !in own && page !in free
      modifies this, mem
      ensures Valid() && free == [page] + old(free) && own == old(own) && SameMaps(old(mem[..]), mem[..], own)
    {
      hide Down, Up;
      ghost var m := mem[..];
      Scribble(m, own, page, m[page][0 := freeList]);
      ChainSame(m, m[page := m[page][0 := freeList]], freeList, free);
      mem[page] := mem[page][0 := freeList];
      freeList := page * PGSIZE;
      free := [page] + free;
      assert free[1..] == old(free);
      assert mem[..] == m[page := m[page][0 := old(freeList)]];
    }

    // A frame nobody owns, filled with the given words.
    method Fill(f: nat, p: Page)
      requires Valid() && f < PHY_FRAME && f !in own && f !in free
      modifies mem
      ensures Valid() && mem[..] == old(mem[..])[f := p] && SameMaps(old(mem[..]), mem[..], own)
    {
      hide Down, Up, SameMaps;
      ghost var m := mem[..];
      Scribble(m, own, f, p);
      ChainSame(m, m[f := p], freeList, free);
      mem[f] := p;
      assert mem[..] == m[f := p];
    }

    // A directory that maps the kernel and nothing else; kpt are its page tables.
    method VmAlloc(kpt: seq<u32>) returns (r: Outcome<nat>)
      requires Valid() && |kpt| == KER_DIRS
      modifies this, mem
      ensures Valid() && (r.Abort? <==> old(free) == [])
      ensures r.Done? ==> r.value !in old(own) && r.value < PHY_FRAME && own == old(own)[r.value := Dir]
      ensures r.Done? ==> forall v: nat | UserPage(v) :: At(r.value, v) == -1
      ensures SameMaps(old(mem[..]), mem[..], old(own))
    {
      hide Down, Up;
      r := Kalloc();
      if r.Abort? { return; }
      var pd := r.value;
      var entries: Page := seq(NR_PTE, i requires 0 <= i < NR_PTE => if i < KER_DIRS then kpt[i] else 0);
      Fill(pd, entries);
      AddDir(mem[..], own, pd);
      own := own[pd := Dir];
    }

    // vm_walkpte: the table that holds the entry of page v, allocated if prot is not 0.
    method WalkPte(d: nat, v: nat, prot: nat) returns (r: Outcome<int>)
      requires Valid() && IsDir(own, d) && UserPage(v) && d < PHY_FRAME && prot < 8
      modifies this, mem
      ensures Valid() && OnlyMore(old(own), own) && SameMaps(old(mem[..]), mem[..], old(own))
      ensures r.Abort? ==> free == [] && prot != 0
      ensures r.Done? ==> r.value >= (if prot != 0 then 0 else -1)
      ensures r.Done? && r.value >= 0 ==> HasTable(mem[..], own, d, v / NR_PTE, r.value)
      ensures r == Done(-1) ==> At(d, v) == -1
      ensures prot == 0 ==> mem[..] == old(mem[..]) && own == old(own) && free == old(free)
    {
      hide Down, Up, SameMaps;
      var i := v / NR_PTE;
      var pde := mem[d][i];
      SameRefl(mem[..], own);
      if !Present(pde) {
        if prot == 0 { return Done(-1); }
        var pt := Kalloc();
        if pt.Abort? { return Abort; }
        Fill(pt.value, ZeroPage());
        ghost var m := mem[..];
        AddTable(m, own, d, i, pt.value, prot);
        SameTrans(old(mem[..]), m, m[d := m[d][i := Make(pt.value, prot)]], own);
        NotFree(m, freeList, free, own, d);
        ChainSame(m, m[d := m[d][i := Make(pt.value, prot)]], freeList, free);
        mem[d] := mem[d][i := Make(pt.value, prot)];
        assert mem[..] == m[d := m[d][i := Make(pt.value, prot)]];
        own := own[pt.value := Table(d, i)];
        pde := mem[d][i];
      }
      TableThere(mem[..], own, d, i);
      return Done(Frame(pde));
    }

    // vm_walk without allocation
    method Walk(d: nat, v: nat) returns (f: int)
      requires Valid() && IsDir(own, d) && UserPage(v) && d < PHY_FRAME
      modifies this, mem
      ensures Valid() && f == At(d, v) && mem[..] == old(mem[..]) && own == old(own) && free == old(free)
    {
      hide Down, Up, SameMaps;
      var t := WalkPte(d, v, 0);
      if t.Abort? || t.value < 0 { return -1; }
      EntryOwned(mem[..], own, d, v / NR_PTE, t.value, v);
      if !Present(mem[t.value][v % NR_PTE]) { return -1; }
      return Frame(mem[t.value][v % NR_PTE]);
    }

    // The body of the loop of vm_map: page v of directory d.
    method MapPage(d: nat, v: nat, prot: nat) returns (r: Outcome<()>)
      requires Valid() && IsDir(own, d) && UserPage(v) && d < PHY_FRAME && prot % 2 == 1 && prot < 8
      modifies this, mem
      ensures Valid() && OnlyMore(old(own), own)
      ensures r.Abort? ==> free == []
      ensures r.Done? ==> MapGrew(old(mem[..]), mem[..], old(own), d, v, v + 1)
    {
      hide Down, Up, SameMaps, MapGrew;
      var i, j := v / NR_PTE, v % NR_PTE;
      var t := WalkPte(d, v, prot);
      if t.Abort? { return Abort; }
      ghost var m1, own1 := mem[..], own;
      DirStays(old(own), own, d);
      SameMore(old(mem[..]), m1, old(own), d, v);
      EntryOwned(m1, own, d, i, t.value, v);
      if Present(mem[t.value][j]) {
        Already(m1, own, d, v);
        GrewTrans(old(mem[..]), m1, m1, old(own), own, d, v, v, v + 1);
        return Done(());
      }
      var page := Kalloc();
      if page.Abort? { return Abort; }
      Fill(page.value, ZeroPage());
      ghost var m2 := mem[..];
      Untouched(m1, m2, own, d, i, t.value, page.value);
      AddPage(m2, own, d, i, j, t.value, page.value, prot);
      NotFree(m2, freeList, free, own, t.value);
      ghost var m3 := m2[t.value := m2[t.value][j := Make(page.value, prot)]];
      ChainSame(m2, m3, freeList, free);
      mem[t.value] := mem[t.value][j := Make(page.value, prot)];
      assert mem[..] == m3;
      NewPage(m1, m2, m3, own, d, v, page.value);
      own := own[page.value := Data(d, i, j)];
      GrewTrans(old(mem[..]), m1, m3, old(own), own1, d, v, v, v + 1);
      return Done(());
    }

    // vm_map; the three assertions of the source abort.
    method VmMap(d: nat, va: u32, len: u32, prot: nat) returns (r: Outcome<()>)
      requires Valid() && IsDir(own, d) && d < PHY_FRAME
      modifies this, mem
      ensures Valid() && OnlyMore(old(own), own)
      ensures !MapOk(va, len, prot) ==> r.Abort?
      ensures r.Abort? && MapOk(va, len, prot) ==> free == []
      ensures r.Done? ==> MapGrew(old(mem[..]), mem[..], old(own), d, PageDown(va) / PGSIZE,
        PageUp(Wrap(va + len)) / PGSIZE)
    {
      hide Down, Up, MapGrew, SameMaps;
      if prot % 2 == 0 || prot >= 8 { return Abort; }
      var start, end := PageDown(va), PageUp(Wrap(va + len));
      if start < PHY_FRAME * PGSIZE || end < start { return Abort; }
      var cur := start;
      ghost var m0, own0 := mem[..], own;
      GrewRefl(m0, own0, d, start / PGSIZE);
      while cur < end
        invariant Valid() && OnlyMore(own0, own) && IsDir(own, d) && start <= cur <= end && cur % PGSIZE == 0
        invariant MapGrew(m0, mem[..], own0, d, start / PGSIZE, cur / PGSIZE)
        decreases end - cur
      {
        ghost var m1, own1 := mem[..], own;
        var p := MapPage(d, cur / PGSIZE, prot);
        if p.Abort? { return Abort; }
        MoreTrans(own0, own1, own);
        DirStays(own1, own, d);
        GrewTrans(m0, m1, mem[..], own0, own1, d, start / PGSIZE, cur / PGSIZE, cur / PGSIZE + 1);
        cur := cur + PGSIZE;
      }
      return Done(());
    }

    // vm_copycurr: what cur maps, child maps too, with the same words in frames of its own.
    method VmCopycurr(cur: nat, child: nat) returns (r: Outcome<()>)
      requires Valid() && IsDir(own, cur) && IsDir(own, child) && cur != child && cur < PHY_FRAME && child < PHY_FRAME
      modifies this, mem
      ensures Valid() && OnlyMore(old(own), own)
      ensures r.Abort? ==> free == []
      ensures r.Done? ==> Copied(old(mem[..]), mem[..], old(own), cur, child, USR_PAGE)
    {
      hide Down, Up, SameMaps, MapGrew, Copied, OnlyMore, Wrote, PageAt, Lookup;
      MoreRefl(own);
      ghost var m0, own0 := mem[..], own;
      CopiedNone(m0, own0, cur, child);
      for v := PHY_FRAME to USR_PAGE
        invariant Valid() && OnlyMore(own0, own) && IsDir(own, cur) && IsDir(own, child)
        invariant Copied(m0, mem[..], own0, cur, child, v)
      {
        ghost var m1, own1 := mem[..], own;
        var from := Walk(cur, v);
        if from != -1 {
          var done := VmMap(child, v * PGSIZE, PGSIZE, 7);
          MoreTrans(own0, own1, own);
          if done.Abort? { return Abort; }
          DirStays(own1, own, cur);
          DirStays(own1, own, child);
          ghost var m2 := mem[..];
          var to := Walk(child, v);
          from := Walk(cur, v);
          CopyStep(m0, m1, m2, own0, own1, own, cur, child, v);
          CopyPage(child, v, to, from);
          CopyDone(m0, m1, m2, mem[..], own0, own1, own, cur, child, v);
        } else {
          CopySkip(m0, m1, own0, own1, cur, child, v);
        }
      }
      return Done(());
    }

    // memcpy of a whole page
    method CopyPage(d: nat, v: nat, to: nat, from: nat)
      requires Valid() && IsDir(own, d) && d < PHY_FRAME && UserPage(v) && to == At(d, v) && to < PHY_FRAME
        && from < PHY_FRAME
      modifies mem
      ensures Valid() && mem[..] == old(mem[..])[to := old(mem[from])]
      ensures Wrote(old(mem[..]), mem[..], own, d, v, old(mem[from]))
    {
      hide Down, Up;
      ghost var m := mem[..];
      WritePage(m, own, d, v, m[from]);
      NotFree(m, freeList, free, own, to);
      ChainSame(m, m[to := m[from]], freeList, free);
      mem[to] := mem[from];
      assert mem[..] == m[to := m[from]];
    }

    // A user program stores a word: no other address space can tell.
    method Store(d: nat, v: nat, off: nat, w: u32)
      requires Valid() && IsDir(own, d) && d < PHY_FRAME && UserPage(v) && At(d, v) != -1 && off < NR_PTE
      modifies mem
      ensures Valid() && Wrote(old(mem[..]), mem[..], own, d, v, old(Words(d, v))[off := w])
    {
      hide Down, Up;
      ghost var m, f := mem[..], At(d, v);
      var t := Frame(mem[d][v / NR_PTE]);
      var g := Frame(mem[t][v % NR_PTE]);
      WritePage(m, own, d, v, m[g][off := w]);
      NotFree(m, freeList, free, own, g);
      ChainSame(m, m[g := m[g][off := w]], freeList, free);
      mem[g] := mem[g][off := w];
      assert mem[..] == m[g := m[g][off := w]];
    }
  }

  lemma {:induction false} FreshChain(mem: Memory, f: nat)
    requires KER_FRAME <= f <= PHY_FRAME
    requires forall k | KER_FRAME <= k < PHY_FRAME :: mem[k][0] == if k + 1 < PHY_FRAME then (k + 1) * PGSIZE else 0
    ensures Chain(mem, if f < PHY_FRAME then f * PGSIZE else 0, seq(PHY_FRAME - f, k => f + k))
    decreases PHY_FRAME - f
  {
    if f < PHY_FRAME {
      FreshChain(mem, f + 1);
      var s := seq(PHY_FRAME - f, k => f + k);
      assert s[1..] == seq(PHY_FRAME - (f + 1), k => f + 1 + k);
    }
  }

  // Frames keep their use; more may be in use.
  ghost predicate OnlyMore(own: map<nat, Owner>, own': map<nat, Owner>) {
    forall f | f in own :: f in own' && own'[f] == own[f]
  }

  lemma SameRefl(mem: Memory, own: map<nat, Owner>)
    requires InRange(own)
    ensures SameMaps(mem, mem, own)
  {}

  lemma SameTrans(a: Memory, b: Memory, c: Memory, own: map<nat, Owner>)
    requires InRange(own) && SameMaps(a, b, own) && SameMaps(b, c, own)
    ensures SameMaps(a, c, own)
  {}

  lemma NotFree(mem: Memory, head: u32, free: seq<nat>, own: map<nat, Owner>, f: nat)
    requires Inv(mem, head, free, own) && f in own
    ensures forall k | 0 <= k < |free| :: free[k] != f
  {
    hide Down, Up;
  }

  lemma TableThere(mem: Memory, own: map<nat, Owner>, d: nat, i: nat)
    requires InRange(own) && Down(mem, own) && IsDir(own, d) && KER_DIRS <= i < NR_PTE && d < PHY_FRAME
      && Present(mem[d][i])
    ensures Frame(mem[d][i]) in own && HasTable(mem, own, d, i, Frame(mem[d][i]))
  {
    assert own[Frame(mem[d][i])] == Table(d, i);
  }

  function PageDown(x: u32): u32 { x / PGSIZE * PGSIZE }
  function Wrap(x: nat): u32 { x % 0x1_0000_0000 }
  function PageUp(x: u32): u32 { PageDown(Wrap(x + PGSIZE - 1)) }

  // What vm_map asserts of its arguments; addresses wrap round at 2^32.
  predicate MapOk(va: u32, len: u32, prot: nat) {
    prot % 2 == 1 && prot < 8 && PageDown(va) >= PHY_FRAME * PGSIZE && PageUp(Wrap(va + len)) >= PageDown(va)
  }

  // Pages lo to hi of d are mapped now; new pages read as zeros (as unmapped ones do in PageAt); every
  // mapping there was is kept, and so are the words of all pages.
  ghost predicate MapGrew(m: Memory, m': Memory, own: map<nat, Owner>, d: nat, lo: nat, hi: nat)
    requires InRange(own)
  {
    forall e: nat, v: nat | IsDir(own, e) && UserPage(v) ::
      && PageAt(m', e, v) == PageAt(m, e, v)
      && (Lookup(m, e, v) != -1 || e != d || v < lo || hi <= v ==> Lookup(m', e, v) == Lookup(m, e, v))
      && (e == d && lo <= v < hi ==> Lookup(m', e, v) != -1)
  }

  // Said of addresses: every byte of the range lies in a page that is mapped, and a page without a byte
  // of the range is mapped as before.
  lemma RangeMapped(m: Memory, m': Memory, own: map<nat, Owner>, d: nat, va: u32, len: u32, a: u32)
    requires InRange(own) && IsDir(own, d) && UserPage(a / 4096) && va + len + 4095 < 0x1_0000_0000
    requires MapGrew(m, m', own, d, PageDown(va) / PGSIZE, PageUp(Wrap(va + len)) / PGSIZE)
    ensures va <= a < va + len ==> Lookup(m', d, a / 4096) != -1
    ensures a / 4096 * 4096 + 4096 <= va || va + len <= a / 4096 * 4096 ==>
      Lookup(m', d, a / 4096) == Lookup(m, d, a / 4096)
  {
    hide Lookup, PageDown, PageUp, Wrap;
    var v := a / 4096;
    PagesOf(va, len, a);
    assert PageAt(m', d, v) == PageAt(m, d, v);
  }

  lemma PagesOf(va: u32, len: u32, a: u32)
    requires va + len + 4095 < 0x1_0000_0000
    ensures va <= a < va + len ==> PageDown(va) / PGSIZE <= a / 4096 < PageUp(Wrap(va + len)) / PGSIZE
    ensures a / 4096 * 4096 + 4096 <= va ==> a / 4096 < PageDown(va) / PGSIZE
    ensures va + len <= a / 4096 * 4096 ==> PageUp(Wrap(va + len)) / PGSIZE <= a / 4096
  {
    assert PageDown(va) / PGSIZE == va / 4096;
    assert PageUp(Wrap(va + len)) / PGSIZE == (va + len + 4095) / 4096;
  }

  // Page v of d has the words p now; nothing else has changed in any address space.
  ghost predicate Wrote(m: Memory, m': Memory, own: map<nat, Owner>, d: nat, v: nat, p: Page)
    requires InRange(own)
  {
    forall e: nat, u: nat | IsDir(own, e) && UserPage(u) ::
      Lookup(m', e, u) == Lookup(m, e, u) && PageAt(m', e, u) == if e == d && u == v then p else PageAt(m, e, u)
  }

  // Below page n, child maps what cur maps, with equal words; all else is as it was.
  ghost predicate Copied(m: Memory, m': Memory, own: map<nat, Owner>, cur: nat, child: nat, n: nat)
    requires InRange(own)
  {
    forall e: nat, v: nat | IsDir(own, e) && UserPage(v) ::
      if e == child && v < n && cur < PHY_FRAME && Lookup(m, cur, v) != -1
      then Lookup(m', e, v) != -1 && PageAt(m', e, v) == PageAt(m, cur, v)
      else Lookup(m', e, v) == Lookup(m, e, v) && PageAt(m', e, v) == PageAt(m, e, v)
  }

  // Into a fresh directory: exactly the pages of the parent, none of its frames.
  lemma ForkIsolates(m: Memory, m': Memory, own: map<nat, Owner>, own': map<nat, Owner>, head: u32, free: seq<nat>,
      cur: nat, child: nat, v: nat)
    requires InRange(own) && Copied(m, m', own, cur, child, USR_PAGE) && OnlyMore(own, own')
      && Inv(m', head, free, own')
    requires IsDir(own, cur) && IsDir(own, child) && cur != child && PHY_FRAME <= v < USR_PAGE
    requires forall u: nat | UserPage(u) :: Lookup(m, child, u) == -1
    ensures Lookup(m', child, v) != -1 <==> Lookup(m', cur, v) != -1
    ensures PageAt(m', child, v) == PageAt(m', cur, v) == PageAt(m, cur, v)
    ensures forall e: nat, u: nat | IsDir(own', e) && UserPage(u) && (e != child || u != v)
      && Lookup(m', child, v) != -1 ::
      Lookup(m', e, u) != Lookup(m', child, v)
  {
    hide Down, Up, Lookup;
    UnmappedZero(m, child, v);
    UnmappedZero(m, cur, v);
    forall e: nat, u: nat | IsDir(own', e) && UserPage(u) && (e != child || u != v) && Lookup(m', child, v) != -1
      ensures Lookup(m', e, u) != Lookup(m', child, v)
    {
      if Lookup(m', e, u) == Lookup(m', child, v) { NeverShared(m', head, free, own', e, u, child, v); }
    }
  }

  lemma UnmappedZero(m: Memory, d: nat, v: nat)
    requires d < PHY_FRAME && v < PAGES
    ensures Lookup(m, d, v) == -1 ==> PageAt(m, d, v) == ZeroPage()
  {}

  lemma EntryOwned(m: Memory, own: map<nat, Owner>, d: nat, i: nat, t: nat, v: nat)
    requires InRange(own) && Down(m, own) && HasTable(m, own, d, i, t) && UserPage(v) && i == v / NR_PTE
    ensures var e := m[t][v % NR_PTE];
      Lookup(m, d, v) == if Present(e) then Frame(e) else -1
  {
    assert own[t] == Table(d, i);
  }

  lemma DirStays(own: map<nat, Owner>, own': map<nat, Owner>, d: nat)
    requires OnlyMore(own, own') && IsDir(own, d)
    ensures IsDir(own', d)
  {}

  lemma MoreRefl(own: map<nat, Owner>)
    ensures OnlyMore(own, own)
  {}

  lemma MoreTrans(a: map<nat, Owner>, b: map<nat, Owner>, c: map<nat, Owner>)
    requires OnlyMore(a, b) && OnlyMore(b, c)
    ensures OnlyMore(a, c)
  {}

  lemma SameMore(m: Memory, m': Memory, own: map<nat, Owner>, d: nat, v: nat)
    requires InRange(own) && SameMaps(m, m', own)
    ensures MapGrew(m, m', own, d, v, v)
  {}

  lemma GrewRefl(m: Memory, own: map<nat, Owner>, d: nat, v: nat)
    requires InRange(own)
    ensures MapGrew(m, m, own, d, v, v)
  {}

  lemma Already(m: Memory, own: map<nat, Owner>, d: nat, v: nat)
    requires InRange(own) && IsDir(own, d) && UserPage(v) && Lookup(m, d, v) != -1
    ensures MapGrew(m, m, own, d, v, v + 1)
  {}

  lemma GrewTrans(a: Memory, b: Memory, c: Memory, own: map<nat, Owner>, own': map<nat, Owner>, d: nat, lo: nat,
      mid: nat, hi: nat)
    requires InRange(own) && InRange(own') && OnlyMore(own, own') && MapGrew(a, b, own, d, lo, mid)
      && MapGrew(b, c, own', d, mid, hi)
    requires lo <= mid <= hi
    ensures MapGrew(a, c, own, d, lo, hi)
  {
    hide Lookup, PageAt;
  }

  // Filling a free frame does not touch the table.
  lemma Untouched(m: Memory, m': Memory, own: map<nat, Owner>, d: nat, i: nat, t: nat, f: nat)
    requires InRange(own) && Down(m, own) && HasTable(m, own, d, i, t) && f < PHY_FRAME && f !in own
      && m' == m[f := ZeroPage()]
    ensures HasTable(m', own, d, i, t) && m'[t] == m[t] && t in own
  {
    assert own[t] == Table(d, i);
  }

  lemma NewPage(m1: Memory, m2: Memory, m3: Memory, own: map<nat, Owner>, d: nat, v: nat, g: nat)
    requires InRange(own) && IsDir(own, d) && UserPage(v) && SameMaps(m1, m2, own) && g < PHY_FRAME
      && m3[g] == ZeroPage() && Lookup(m1, d, v) == -1
    requires forall e: nat, u: nat | IsDir(own, e) && UserPage(u) ::
      Lookup(m3, e, u) == (if e == d && u == v then g else Lookup(m2, e, u))
      && (Lookup(m2, e, u) != -1 ==> PageAt(m3, e, u) == PageAt(m2, e, u))
    ensures MapGrew(m1, m3, own, d, v, v + 1)
  {
    hide Lookup;
  }

  lemma CopiedNone(m: Memory, own: map<nat, Owner>, cur: nat, child: nat)
    requires InRange(own)
    ensures Copied(m, m, own, cur, child, PHY_FRAME)
  {}

  lemma CopySkip(m0: Memory, m1: Memory, own0: map<nat, Owner>, own1: map<nat, Owner>, cur: nat, child: nat, v: nat)
    requires InRange(own0) && OnlyMore(own0, own1) && Copied(m0, m1, own0, cur, child, v) && IsDir(own0, cur)
      && UserPage(v) && cur != child
    requires Lookup(m1, cur, v) == -1
    ensures Copied(m0, m1, own0, cur, child, v + 1)
  {
    hide Lookup, PageAt;
  }

  // One page is mapped for the range that vm_copycurr asks for.
  lemma OnePage(v: nat)
    requires v < USR_PAGE
    ensures PageDown(v * PGSIZE) / PGSIZE == v && PageUp(Wrap(v * PGSIZE + PGSIZE)) / PGSIZE == v + 1
  {
    assert (v + 1) * PGSIZE + PGSIZE - 1 < 0x1_0000_0000;
  }

  lemma CopyStep(m0: Memory, m1: Memory, m2: Memory, own0: map<nat, Owner>, own1: map<nat, Owner>, own2: map<nat,
      Owner>, cur: nat, child: nat, v: nat)
    requires InRange(own0) && InRange(own1) && OnlyMore(own0, own1) && IsDir(own0, cur) && IsDir(own0, child)
      && cur != child && UserPage(v)
    requires InRange(own2) && Down(m2, own2) && OnlyMore(own1, own2) && v < USR_PAGE && Lookup(m1, cur, v) != -1
    requires MapGrew(m1, m2, own1, child, PageDown(v * PGSIZE) / PGSIZE, PageUp(Wrap(v * PGSIZE + PGSIZE)) / PGSIZE)
    ensures 0 <= Lookup(m2, child, v) < PHY_FRAME && 0 <= Lookup(m2, cur, v) < PHY_FRAME
      && Lookup(m2, cur, v) == Lookup(m1, cur, v)
    ensures MapGrew(m1, m2, own1, child, v, v + 1) && m2[Lookup(m2, cur, v)] == PageAt(m1, cur, v)
  {
    hide PageDown, PageUp, Wrap;
    OnePage(v);
    LookupOwned(m2, own2, child, v);
    LookupOwned(m2, own2, cur, v);
    hide Lookup;
  }

  lemma CopyDone(m0: Memory, m1: Memory, m2: Memory, m3: Memory, own0: map<nat, Owner>, own1: map<nat, Owner>,
      own2: map<nat, Owner>, cur: nat, child: nat, v: nat)
    requires InRange(own0) && InRange(own1) && InRange(own2) && OnlyMore(own0, own1) && OnlyMore(own1, own2)
    requires Copied(m0, m1, own0, cur, child, v) && MapGrew(m1, m2, own1, child, v, v + 1)
    requires IsDir(own0, cur) && IsDir(own0, child) && cur != child && UserPage(v) && Lookup(m1, cur, v) != -1
    requires Wrote(m2, m3, own2, child, v, PageAt(m1, cur, v))
    ensures Copied(m0, m3, own0, cur, child, v + 1)
  {
    hide Lookup, PageAt;
  }
}

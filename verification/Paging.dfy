// kernel/src/vme.c as values: frames of physical memory, two-level page tables in them, and the list
// of free frames threaded through them.
module Paging {
  import opened Bytes

  const NR_PTE := 1024
  const PGSIZE := 4096
  const KER_FRAME := 0x0020_0000 / PGSIZE     // KER_MEM: the first frame that is not part of the kernel
  const PHY_FRAME := 0x0800_0000 / PGSIZE     // PHY_MEM: the end of memory, and the first user page
  const USR_PAGE := 0xc000_0000 / PGSIZE      // USR_MEM
  const KER_DIRS := PHY_FRAME / NR_PTE        // directory entries that map the kernel
  const PAGES := 0x1_0000_0000 / PGSIZE

  type Page = p: seq<u32> | |p| == NR_PTE witness seq(NR_PTE, _ => 0)
  const NO_WORDS: Page := seq(NR_PTE, _ => 0)
  const NO_PAGES: seq<Page> := seq(PHY_FRAME, _ => NO_WORDS)
  type Memory = m: seq<Page> | |m| == PHY_FRAME witness NO_PAGES

  function ZeroPage(): Page { seq(NR_PTE, _ => 0) }

  // An entry of a directory or table: frame number, protection bits, present bit.
  predicate Present(e: u32) { e % 2 == 1 }
  function Frame(e: u32): nat { e / PGSIZE }

  function Make(f: nat, prot: nat): (e: u32)
    requires f < PHY_FRAME && prot < 8
    ensures Present(e) && Frame(e) == f && e / 0x1000 == f && e % 0x1000 == if prot % 2 == 1 then prot else prot + 1
  {
    f * PGSIZE + prot / 2 * 2 + 1
  }

  // What a frame that is not free is used for.
  datatype Owner = Dir | Table(dir: nat, i: nat) | Data(dir: nat, i: nat, j: nat)

  // ---- the invariant ----

  predicate IsDir(own: map<nat, Owner>, d: nat) { d in own && own[d] == Dir }

  ghost predicate InRange(own: map<nat, Owner>) {
    forall f | f in own :: KER_FRAME <= f < PHY_FRAME
  }

  // Whatever a directory or a table points to belongs to just that entry.
  ghost predicate Down(mem: Memory, own: map<nat, Owner>)
    requires InRange(own)
  {
    && (forall d: nat, i: nat | IsDir(own, d) && KER_DIRS <= i < NR_PTE && Present(mem[d][i]) ::
      Frame(mem[d][i]) in own && own[Frame(mem[d][i])] == Table(d, i))
    && (forall t: nat, j: nat | t in own && own[t].Table? && j < NR_PTE && Present(mem[t][j]) ::
      Frame(mem[t][j]) in own && own[Frame(mem[t][j])] == Data(own[t].dir, own[t].i, j))
  }

  // The table of entry i of directory d.
  predicate HasTable(mem: Memory, own: map<nat, Owner>, d: nat, i: nat, t: nat) {
    IsDir(own, d) && KER_DIRS <= i < NR_PTE && d < PHY_FRAME && Present(mem[d][i]) && Frame(mem[d][i]) == t
      && t < PHY_FRAME
  }

  // And whatever is used is pointed to from there.
  ghost predicate Up(mem: Memory, own: map<nat, Owner>)
    requires InRange(own)
  {
    && (forall t: nat | t in own && own[t].Table? :: HasTable(mem, own, own[t].dir, own[t].i, t))
    && (forall g: nat | g in own && own[g].Data? ::
      var d, i, j := own[g].dir, own[g].i, own[g].j;
      && IsDir(own, d) && KER_DIRS <= i < NR_PTE && j < NR_PTE && Present(mem[d][i])
      && var t := Frame(mem[d][i]);
      t in own && own[t] == Table(d, i) && Present(mem[t][j]) && Frame(mem[t][j]) == g)
  }

  // Every free page holds the address of the next one in its first word, 0 at the end.
  ghost predicate Chain(mem: Memory, head: u32, free: seq<nat>)
    decreases |free|
  {
    if free == [] then head == 0
    else KER_FRAME <= free[0] < PHY_FRAME && head == free[0] * PGSIZE && Chain(mem, mem[free[0]][0], free[1..])
  }

  ghost predicate Apart(own: map<nat, Owner>, free: seq<nat>) {
    && (forall k | 0 <= k < |free| :: free[k] !in own)
    && (forall k, l | 0 <= k < l < |free| :: free[k] != free[l])
  }

  ghost predicate Inv(mem: Memory, head: u32, free: seq<nat>, own: map<nat, Owner>) {
    InRange(own) && Down(mem, own) && Up(mem, own) && Chain(mem, head, free) && Apart(own, free)
  }

  // ---- what a directory means ----

  // The frame user page v is mapped to.
  function Lookup(mem: Memory, d: nat, v: nat): (f: int)
    requires d < PHY_FRAME && v < PAGES
  {
    var e := mem[d][v / NR_PTE];
    if !Present(e) || Frame(e) >= PHY_FRAME then -1
    else
      var p := mem[Frame(e)][v % NR_PTE];
      if !Present(p) || Frame(p) >= PHY_FRAME then -1 else Frame(p)
  }

  predicate UserPage(v: nat) { PHY_FRAME <= v < PAGES }

  // The words of user page v, if it is mapped.
  function PageAt(mem: Memory, d: nat, v: nat): (p: Page)
    requires d < PHY_FRAME && v < PAGES
  {
    var f := Lookup(mem, d, v);
    if 0 <= f < PHY_FRAME then mem[f] else ZeroPage()
  }

  lemma LookupOwned(mem: Memory, own: map<nat, Owner>, d: nat, v: nat)
    requires InRange(own) && Down(mem, own) && IsDir(own, d) && UserPage(v)
    ensures var f := Lookup(mem, d, v); f == -1 || (f in own && own[f] == Data(d, v / NR_PTE, v % NR_PTE))
  {
    var e := mem[d][v / NR_PTE];
    if Present(e) { assert own[Frame(e)] == Table(d, v / NR_PTE); }
  }

  // No frame is mapped twice, in one directory or in two.
  lemma NeverShared(mem: Memory, head: u32, free: seq<nat>, own: map<nat, Owner>, d: nat, v: nat, d': nat, v': nat)
    requires Inv(mem, head, free, own) && IsDir(own, d) && IsDir(own, d') && UserPage(v) && UserPage(v')
    requires Lookup(mem, d, v) == Lookup(mem, d', v') != -1
    ensures d == d' && v == v' && Lookup(mem, d, v) !in free
  {
    LookupOwned(mem, own, d, v);
    LookupOwned(mem, own, d', v');
  }

  // ---- the free list ----

  lemma {:induction false} ChainSame(mem: Memory, mem': Memory, head: u32, free: seq<nat>)
    requires Chain(mem, head, free) && forall k | 0 <= k < |free| :: free[k] < PHY_FRAME ==>
      mem'[free[k]] == mem[free[k]]
    ensures Chain(mem', head, free)
    decreases |free|
  {
    if free != [] { ChainSame(mem, mem', mem[free[0]][0], free[1..]); }
  }

  // ---- one change at a time ----

  // Nothing anybody can see has changed: mappings and mapped pages of all directories.
  ghost predicate SameMaps(mem: Memory, mem': Memory, own: map<nat, Owner>)
    requires InRange(own)
  {
    forall d: nat, v: nat | IsDir(own, d) && UserPage(v) ::
      Lookup(mem', d, v) == Lookup(mem, d, v) && PageAt(mem', d, v) == PageAt(mem, d, v)
  }

  // A frame nobody owns may be written to.
  lemma Scribble(mem: Memory, own: map<nat, Owner>, f: nat, p: Page)
    requires InRange(own) && Down(mem, own) && Up(mem, own) && f < PHY_FRAME && f !in own
    ensures Down(mem[f := p], own) && Up(mem[f := p], own) && SameMaps(mem, mem[f := p], own)
  {
    var mem' := mem[f := p];
    forall d: nat, v: nat | IsDir(own, d) && UserPage(v)
      ensures Lookup(mem', d, v) == Lookup(mem, d, v) && PageAt(mem', d, v) == PageAt(mem, d, v)
    {
      LookupOwned(mem, own, d, v);
      var e := mem[d][v / NR_PTE];
      if Present(e) { assert own[Frame(e)] == Table(d, v / NR_PTE); }
    }
  }

  // An empty directory in frame f.
  lemma AddDir(mem: Memory, own: map<nat, Owner>, f: nat)
    requires InRange(own) && Down(mem, own) && Up(mem, own) && KER_FRAME <= f < PHY_FRAME && f !in own
    requires forall i | KER_DIRS <= i < NR_PTE :: !Present(mem[f][i])
    ensures var own' := own[f := Dir];
      InRange(own') && Down(mem, own') && Up(mem, own') && forall v: nat | UserPage(v) :: Lookup(mem, f, v) == -1
  {
    var own' := own[f := Dir];
    assert Down(mem, own') by { hide Up; }
    forall v: nat | UserPage(v) ensures Lookup(mem, f, v) == -1 { assert KER_DIRS <= v / NR_PTE; }
    hide Down, Lookup;
    forall t: nat | t in own' && own'[t].Table? ensures HasTable(mem, own', own'[t].dir, own'[t].i, t) {
      assert HasTable(mem, own, own[t].dir, own[t].i, t);
    }
  }

  lemma AddTableDown(mem: Memory, own: map<nat, Owner>, d: nat, i: nat, t: nat, prot: nat)
    requires InRange(own) && Down(mem, own) && IsDir(own, d) && KER_DIRS <= i < NR_PTE && !Present(mem[d][i])
    requires KER_FRAME <= t < PHY_FRAME && t !in own && mem[t] == ZeroPage() && prot < 8
    ensures InRange(own[t := Table(d, i)]) && Down(mem[d := mem[d][i := Make(t, prot)]], own[t := Table(d, i)])
  {
    hide Make;
  }

  lemma AddTableUp(mem: Memory, own: map<nat, Owner>, d: nat, i: nat, t: nat, prot: nat)
    requires InRange(own) && Up(mem, own) && IsDir(own, d) && KER_DIRS <= i < NR_PTE && !Present(mem[d][i])
    requires KER_FRAME <= t < PHY_FRAME && t !in own && prot < 8
    ensures InRange(own[t := Table(d, i)]) && Up(mem[d := mem[d][i := Make(t, prot)]], own[t := Table(d, i)])
  {
    hide Make;
    var mem', own' := mem[d := mem[d][i := Make(t, prot)]], own[t := Table(d, i)];
    forall g: nat | g in own' && own'[g].Table? ensures HasTable(mem', own', own'[g].dir, own'[g].i, g) {
      if g != t { assert HasTable(mem, own, own[g].dir, own[g].i, g); }
    }
  }

  // An empty table in frame t for entry i of directory d.
  lemma AddTable(mem: Memory, own: map<nat, Owner>, d: nat, i: nat, t: nat, prot: nat)
    requires InRange(own) && Down(mem, own) && Up(mem, own) && IsDir(own, d) && KER_DIRS <= i < NR_PTE
      && !Present(mem[d][i])
    requires KER_FRAME <= t < PHY_FRAME && t !in own && mem[t] == ZeroPage() && prot < 8
    ensures var mem', own' := mem[d := mem[d][i := Make(t, prot)]], own[t := Table(d, i)];
      InRange(own') && Down(mem', own') && Up(mem', own') && SameMaps(mem, mem', own)
  {
    hide Make, Up;
    AddTableDown(mem, own, d, i, t, prot);
    AddTableUp(mem, own, d, i, t, prot);
    var mem' := mem[d := mem[d][i := Make(t, prot)]];
    forall e: nat, v: nat | IsDir(own, e) && UserPage(v)
      ensures Lookup(mem', e, v) == Lookup(mem, e, v) && PageAt(mem', e, v) == PageAt(mem, e, v)
    {
      LookupOwned(mem, own, e, v);
      var x := mem[e][v / NR_PTE];
      if Present(x) { assert own[Frame(x)] == Table(e, v / NR_PTE); }
    }
  }

  lemma AddPageOwn(mem: Memory, own: map<nat, Owner>, d: nat, i: nat, j: nat, t: nat, g: nat, prot: nat)
    requires InRange(own) && Down(mem, own) && Up(mem, own) && HasTable(mem, own, d, i, t) && j < NR_PTE
      && !Present(mem[t][j])
    requires KER_FRAME <= g < PHY_FRAME && g !in own && prot < 8
    ensures t in own && own[t] == Table(d, i)
    ensures var mem', own' := mem[t := mem[t][j := Make(g, prot)]], own[g := Data(d, i, j)];
      InRange(own') && Down(mem', own') && Up(mem', own')
  {
    hide Make;
    var mem', own' := mem[t := mem[t][j := Make(g, prot)]], own[g := Data(d, i, j)];
    assert own[t] == Table(d, i);
    assert Down(mem', own') by { hide Up; }
    hide Down;
    forall h: nat | h in own' && own'[h].Table? ensures HasTable(mem', own', own'[h].dir, own'[h].i, h) {
      assert HasTable(mem, own, own[h].dir, own[h].i, h);
    }
  }

  // Frame g for page i, j of directory d, which has a table for it in frame t.
  lemma AddPage(mem: Memory, own: map<nat, Owner>, d: nat, i: nat, j: nat, t: nat, g: nat, prot: nat)
    requires InRange(own) && Down(mem, own) && Up(mem, own) && HasTable(mem, own, d, i, t) && j < NR_PTE
      && !Present(mem[t][j])
    requires KER_FRAME <= g < PHY_FRAME && g !in own && prot < 8
    ensures t in own && t != g
    ensures var mem', own' := mem[t := mem[t][j := Make(g, prot)]], own[g := Data(d, i, j)];
      && InRange(own') && Down(mem', own') && Up(mem', own')
      && forall e: nat, v: nat | IsDir(own, e) && UserPage(v) ::
        Lookup(mem', e, v) == (if e == d && v == i * NR_PTE + j then g else Lookup(mem, e, v))
        && (Lookup(mem, e, v) != -1 ==> PageAt(mem', e, v) == PageAt(mem, e, v))
  {
    hide Make, Up;
    AddPageOwn(mem, own, d, i, j, t, g, prot);
    var mem' := mem[t := mem[t][j := Make(g, prot)]];
    forall e: nat, v: nat | IsDir(own, e) && UserPage(v)
      ensures Lookup(mem', e, v) == (if e == d && v == i * NR_PTE + j then g else Lookup(mem, e, v))
      ensures Lookup(mem, e, v) != -1 ==> PageAt(mem', e, v) == PageAt(mem, e, v)
    {
      LookupOwned(mem, own, e, v);
      var x := mem[e][v / NR_PTE];
      if Present(x) { assert own[Frame(x)] == Table(e, v / NR_PTE); }
    }
  }

  // Writing to a mapped page changes that page of that directory only.
  lemma WritePage(mem: Memory, own: map<nat, Owner>, d: nat, v: nat, p: Page)
    requires InRange(own) && Down(mem, own) && Up(mem, own) && IsDir(own, d) && UserPage(v) && Lookup(mem, d, v) != -1
    ensures var f := Lookup(mem, d, v);
      && 0 <= f < PHY_FRAME && f in own
      && var mem' := mem[f := p];
      && Down(mem', own) && Up(mem', own)
      && forall e: nat, u: nat | IsDir(own, e) && UserPage(u) ::
        Lookup(mem', e, u) == Lookup(mem, e, u)
        && PageAt(mem', e, u) == if e == d && u == v then p else PageAt(mem, e, u)
  {
    LookupOwned(mem, own, d, v);
    var f := Lookup(mem, d, v);
    var mem' := mem[f := p];
    forall e: nat, u: nat | IsDir(own, e) && UserPage(u)
      ensures Lookup(mem', e, u) == Lookup(mem, e, u)
      ensures PageAt(mem', e, u) == if e == d && u == v then p else PageAt(mem, e, u)
    {
      LookupOwned(mem, own, e, u);
      var x := mem[e][u / NR_PTE];
      if Present(x) { assert own[Frame(x)] == Table(e, u / NR_PTE); }
    }
  }
}

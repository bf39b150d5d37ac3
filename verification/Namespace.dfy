// The directory tree and the open-file table together: what every operation on names keeps.
module Namespace {
  import opened Bytes
  import opened Layout
  import opened Files
  import opened Dirents
  import opened Inodes
  import opened Directories

  // ---- the tree, without bytes ----

  datatype Entry = Entry(ino: nat, name: seq<byte>)
  datatype Node = Free | Leaf | Dir(entries: seq<Entry>)

  function EntriesOf(c: seq<byte>): (es: seq<Entry>)
    ensures |es| == Count(c)
  {
    seq(Count(c), k requires 0 <= k < Count(c) => Entry(EntIno(c, k), EntName(c, k)))
  }

  function NodeOf(f: File): Node {
    if f.typ == TYPE_NONE then Free else if f.typ == TYPE_DIR then Dir(EntriesOf(f.data)) else Leaf
  }

  function NodesOf(f: seq<File>): (ns: seq<Node>)
    ensures |ns| == |f|
  {
    seq(|f|, i requires 0 <= i < |f| => NodeOf(f[i]))
  }

  predicate IsDir(ns: seq<Node>, d: nat) { d < |ns| && ns[d].Dir? }

  // The inode entry k of directory d names; 0 for an unused entry.
  function Ino(ns: seq<Node>, d: nat, k: nat): nat {
    if IsDir(ns, d) && k < |ns[d].entries| then ns[d].entries[k].ino else 0
  }

  function NameOf(ns: seq<Node>, d: nat, k: nat): seq<byte>
    requires Ino(ns, d, k) != 0
  {
    ns[d].entries[k].name
  }

  // Where an inode is entered: in which directory, as which entry, and how deep below the root.
  datatype Home = Home(dir: nat, entry: nat, depth: nat)

  function DepthOf(home: map<nat, Home>, d: nat): nat {
    if d in home then home[d].depth else 0
  }

  // Every directory starts with "." and ".." and has no name twice.
  ghost predicate Shapes(ns: seq<Node>) {
    && (forall d: nat | IsDir(ns, d) :: Ino(ns, d, 0) == d && d != 0 && NameOf(ns, d, 0) == DOT)
    && (forall d: nat | IsDir(ns, d) :: Ino(ns, d, 1) != 0 && NameOf(ns, d, 1) == DOTDOT)
    && (forall d: nat, k: nat, l: nat
      | Ino(ns, d, k) != 0 && Ino(ns, d, l) != 0 && NameOf(ns, d, k) == NameOf(ns, d, l) :: k == l)
  }

  // Every entry in use names an allocated inode.
  ghost predicate Targets(ns: seq<Node>) {
    forall d: nat, k: nat | Ino(ns, d, k) != 0 :: Ino(ns, d, k) < |ns| && !ns[Ino(ns, d, k)].Free?
  }

  // No inode is entered twice (apart from "." and "..").
  ghost predicate Entered(ns: seq<Node>, home: map<nat, Home>) {
    forall d: nat, k: nat | Ino(ns, d, k) != 0 && k >= 2 ::
      Ino(ns, d, k) in home && home[Ino(ns, d, k)].dir == d && home[Ino(ns, d, k)].entry == k
  }

  ghost predicate Homes(ns: seq<Node>, home: map<nat, Home>) {
    forall i | i in home ::
      0 < i && home[i].entry >= 2 && Ino(ns, home[i].dir, home[i].entry) == i
      && home[i].depth == DepthOf(home, home[i].dir) + 1
  }

  // ".." leads one step up.
  ghost predicate DotDots(ns: seq<Node>, home: map<nat, Home>) {
    && Ino(ns, ROOT_INO, 1) == ROOT_INO
    && forall d: nat | IsDir(ns, d) && d != ROOT_INO :: d in home && Ino(ns, d, 1) == home[d].dir
  }

  // A tree of directories below the root.
  ghost predicate Tree(ns: seq<Node>, home: map<nat, Home>) {
    && |ns| == INUM && ns[0].Free? && IsDir(ns, ROOT_INO) && ROOT_INO !in home
    && Shapes(ns) && Targets(ns) && Entered(ns, home) && Homes(ns, home) && DotDots(ns, home)
  }

  // An unlinked inode is held open, is not a directory and is named nowhere; any other
  // allocated inode is the root or is named somewhere.
  ghost predicate Marks(ns: seq<Node>, t: seq<Inode>, home: map<nat, Home>)
    requires |ns| == INUM
  {
    && (forall j: nat | Unlinked(t, j) :: t[j].no !in home && t[j].no != ROOT_INO && !IsDir(ns, t[j].no))
    && (forall i: nat | i < INUM && !ns[i].Free? && i != ROOT_INO && i !in home :: Held(t, i))
  }

  predicate Unlinked(t: seq<Inode>, j: nat) {
    j < |t| && t[j].ref >= 1 && t[j].del
  }

  ghost predicate Held(t: seq<Inode>, i: nat) {
    exists j: nat :: Unlinked(t, j) && t[j].no == i
  }

  ghost predicate WholeEntries(f: seq<File>) {
    forall d: nat | d < |f| && f[d].typ == TYPE_DIR :: |f[d].data| % DIRENT_SIZE == 0
  }

  ghost predicate System(f: seq<File>, t: seq<Inode>) {
    && |f| == INUM && WholeEntries(f)
    && exists home :: Tree(NodesOf(f), home) && Marks(NodesOf(f), t, home)
  }

  // Following ".." n times.
  function Up(ns: seq<Node>, d: nat, n: nat): nat
    decreases n
  {
    if n == 0 then d else Up(ns, Ino(ns, d, 1), n - 1)
  }

  lemma {:induction false} EveryDirReachesRoot(ns: seq<Node>, home: map<nat, Home>, d: nat)
    requires Tree(ns, home) && IsDir(ns, d)
    ensures Up(ns, d, DepthOf(home, d)) == ROOT_INO
    decreases DepthOf(home, d)
  {
    if d != ROOT_INO {
      EveryDirReachesRoot(ns, home, home[d].dir);
    }
  }

  // ---- bytes and tree ----

  lemma Followed(f: seq<File>, home: map<nat, Home>, d: nat)
    requires |f| == INUM && WholeEntries(f) && Tree(NodesOf(f), home) && d < INUM && f[d].typ == TYPE_DIR
    ensures Followable(f, d)
  {
    var ns := NodesOf(f);
    forall k: nat | k < Count(f[d].data) && EntIno(f[d].data, k) != 0
      ensures EntIno(f[d].data, k) < INUM && f[EntIno(f[d].data, k)].typ != TYPE_NONE
    {
      assert Ino(ns, d, k) == EntIno(f[d].data, k);
    }
  }

  // Entry e of es becomes x, or x is appended.
  function PutEntry(es: seq<Entry>, e: nat, x: Entry): seq<Entry>
    requires e <= |es|
  {
    if e == |es| then es + [x] else es[e := x]
  }

  lemma EntrySetEntries(d: seq<byte>, d': seq<byte>, e: nat, ino: u32, name: seq<byte>)
    requires EntrySet(d, d', e, ino, name)
    ensures EntriesOf(d') == PutEntry(EntriesOf(d), e, Entry(ino, name))
  {
    var es, es' := EntriesOf(d), EntriesOf(d');
    forall k | 0 <= k < |es'| ensures es'[k] == PutEntry(es, e, Entry(ino, name))[k] {}
  }

  lemma FreeEntryEntries(c: seq<byte>, e: nat)
    requires FreeEntry(c, DIRENT_SIZE * e) && e <= Count(c)
    ensures forall l: nat | l < e :: EntriesOf(c)[l].ino != 0
    ensures e < Count(c) ==> EntriesOf(c)[e].ino == 0
  {
    assert DIRENT_SIZE * e / DIRENT_SIZE == e;
    forall l: nat | l < e ensures EntriesOf(c)[l].ino != 0 { assert EntIno(c, l) != 0; }
  }

  lemma OnlyDotsEntries(d: seq<byte>, ino: nat, p: nat)
    requires OnlyDots(d, ino, p)
    ensures EntriesOf(d) == [Entry(ino, DOT), Entry(p, DOTDOT)]
  {
    var es := EntriesOf(d);
    assert es[0] == Entry(ino, DOT) && es[1] == Entry(p, DOTDOT);
  }

  function NewNode(ino: nat, p: nat, typ: u32): Node {
    if typ == TYPE_DIR then Dir([Entry(ino, DOT), Entry(p, DOTDOT)]) else Leaf
  }

  lemma CreatedNodes(f: seq<File>, f': seq<File>, p: nat, e: nat, ino: nat, name: seq<byte>, typ: u32)
    requires |f| == INUM && p < INUM && 0 < ino < INUM && f[p].typ == TYPE_DIR && typ != TYPE_NONE
    requires Created(f, f', p, e, ino, name, typ)
    ensures |f'| == INUM && p != ino && e <= Count(f[p].data)
    ensures NodesOf(f') ==
      NodesOf(f)[ino := NewNode(ino, p, typ)][p := Dir(PutEntry(EntriesOf(f[p].data), e, Entry(ino, name)))]
  {
    var ns' := NodesOf(f)[ino := NewNode(ino, p, typ)][p := Dir(PutEntry(EntriesOf(f[p].data), e, Entry(ino, name)))];
    EntrySetEntries(f[p].data, f'[p].data, e, ino, name);
    if typ == TYPE_DIR { OnlyDotsEntries(f'[ino].data, ino, p); }
    hide EntriesOf, OnlyDots, EntrySet, PutEntry, FreeEntry;
    forall i: nat | i < INUM ensures NodesOf(f')[i] == ns'[i] {}
  }

  lemma NotFound(c: seq<byte>, name: seq<byte>)
    requires LookupIno(c, name) == 0
    ensures forall k | 0 <= k < |EntriesOf(c)| && EntriesOf(c)[k].ino != 0 :: EntriesOf(c)[k].name != name
  {
    FirstEntry(c, name, EntryFrom(c, name, 0));
    forall k | 0 <= k < |EntriesOf(c)| && EntriesOf(c)[k].ino != 0 ensures EntriesOf(c)[k].name != name {
      assert !Names(c, k, name);
    }
  }

  // ---- creation ----

  // What creation does, entry by entry.
  ghost predicate EntryAdded(ns: seq<Node>, ns': seq<Node>, p: nat, e: nat, ino: nat, name: seq<byte>, node: Node) {
    && |ns'| == |ns| && p != ino && p < |ns| && ino < |ns|
      && (node == Leaf || node == Dir([Entry(ino, DOT), Entry(p, DOTDOT)]))
    && (forall d: nat | d < |ns| && d != ino :: (ns'[d].Free? <==> ns[d].Free?) && (IsDir(ns', d) <==> IsDir(ns, d)))
    && ns'[ino] == node
    && (forall d: nat, k: nat ::
      Ino(ns', d, k) == if d == p && k == e then ino
        else if d == ino then (if node.Dir? && k == 0 then ino else if node.Dir? && k == 1 then p else 0)
        else Ino(ns, d, k))
    && (Ino(ns', p, e) != 0 ==> NameOf(ns', p, e) == name)
    && (forall d: nat, k: nat | d != ino && !(d == p && k == e) && Ino(ns, d, k) != 0 && Ino(ns', d, k) != 0 ::
      NameOf(ns', d, k) == NameOf(ns, d, k))
  }

  lemma CreateAdds(ns: seq<Node>, p: nat, e: nat, ino: nat, name: seq<byte>, node: Node)
    requires IsDir(ns, p) && 0 < ino < |ns| && ns[ino].Free? && 0 < p
    requires node == Leaf || node == Dir([Entry(ino, DOT), Entry(p, DOTDOT)])
    requires e <= |ns[p].entries| && Ino(ns, p, e) == 0
    ensures var ns' := ns[ino := node][p := Dir(PutEntry(ns[p].entries, e, Entry(ino, name)))];
      EntryAdded(ns, ns', p, e, ino, name, node)
  {}

  lemma AddShapes(ns: seq<Node>, ns': seq<Node>, p: nat, e: nat, ino: nat, name: seq<byte>, node: Node)
    requires EntryAdded(ns, ns', p, e, ino, name, node) && Shapes(ns) && IsDir(ns, p) && 0 < ino && e >= 2
      && Ino(ns, p, e) == 0
    requires !IsDir(ns, ino)
    requires forall k: nat | Ino(ns, p, k) != 0 :: NameOf(ns, p, k) != name
    ensures Shapes(ns')
  {
    hide Ino;
    forall d: nat, k: nat, l: nat | Ino(ns', d, k) != 0 && Ino(ns', d, l) != 0 && NameOf(ns', d, k) == NameOf(ns', d, l)
      ensures k == l
    {
      if d != ino {
        assert !(d == p && k == e) ==> NameOf(ns', d, k) == NameOf(ns, d, k);
        assert !(d == p && l == e) ==> NameOf(ns', d, l) == NameOf(ns, d, l);
      }
    }
    forall d: nat | IsDir(ns', d) ensures Ino(ns', d, 0) == d && d != 0 && NameOf(ns', d, 0) == DOT {
      if d != ino { assert IsDir(ns, d); }
    }
    forall d: nat | IsDir(ns', d) ensures Ino(ns', d, 1) != 0 && NameOf(ns', d, 1) == DOTDOT {
      if d != ino { assert IsDir(ns, d); }
    }
  }

  lemma AddTargets(ns: seq<Node>, ns': seq<Node>, p: nat, e: nat, ino: nat, name: seq<byte>, node: Node)
    requires Targets(ns) && IsDir(ns, p) && 0 < ino && EntryAdded(ns, ns', p, e, ino, name, node)
    ensures Targets(ns')
  {
    hide Ino;
  }

  lemma AddEntered(ns: seq<Node>, ns': seq<Node>, home: map<nat, Home>, p: nat, e: nat, ino: nat, name: seq<byte>,
      node: Node)
    requires Targets(ns) && 0 < ino < |ns| && ns[ino].Free? && Entered(ns, home)
    requires e >= 2 && EntryAdded(ns, ns', p, e, ino, name, node)
    ensures Entered(ns', home[ino := Home(p, e, DepthOf(home, p) + 1)])
  {
    hide Ino;
  }

  lemma AddHomes(ns: seq<Node>, ns': seq<Node>, home: map<nat, Home>, p: nat, e: nat, ino: nat, name: seq<byte>,
      node: Node)
    requires Targets(ns) && Homes(ns, home) && 0 < ino < |ns| && ns[ino].Free? && e >= 2 && Ino(ns, p, e) == 0
    requires EntryAdded(ns, ns', p, e, ino, name, node)
    ensures Homes(ns', home[ino := Home(p, e, DepthOf(home, p) + 1)]) && ino !in home
  {
    assert forall k: nat :: Ino(ns, ino, k) == 0;
    hide Ino;
    var home' := home[ino := Home(p, e, DepthOf(home, p) + 1)];
    assert ino !in home;
    forall i | i in home'
      ensures 0 < i && home'[i].entry >= 2 && Ino(ns', home'[i].dir, home'[i].entry) == i
      ensures home'[i].depth == DepthOf(home', home'[i].dir) + 1
    {
      if i != ino { assert Ino(ns, home[i].dir, home[i].entry) == i; assert home[i].dir != ino; }
    }
  }

  lemma AddDotDots(ns: seq<Node>, ns': seq<Node>, home: map<nat, Home>, p: nat, e: nat, ino: nat, name: seq<byte>,
      node: Node)
    requires DotDots(ns, home) && 0 < ino < |ns| && ns[ino].Free? && e >= 2 && ROOT_INO < |ns| && IsDir(ns, ROOT_INO)
    requires ino !in home && EntryAdded(ns, ns', p, e, ino, name, node)
    ensures DotDots(ns', home[ino := Home(p, e, DepthOf(home, p) + 1)])
  {
    hide Ino;
    var home' := home[ino := Home(p, e, DepthOf(home, p) + 1)];
    forall d: nat | IsDir(ns', d) && d != ROOT_INO ensures d in home' && Ino(ns', d, 1) == home'[d].dir {
      if d != ino { assert IsDir(ns, d); }
    }
  }

  lemma AddTree(ns: seq<Node>, ns': seq<Node>, home: map<nat, Home>, p: nat, e: nat, ino: nat, name: seq<byte>,
      node: Node)
    requires Tree(ns, home) && IsDir(ns, p) && 0 < ino < INUM && ns[ino].Free? && e >= 2
    requires EntryAdded(ns, ns', p, e, ino, name, node) && Shapes(ns') && Ino(ns, p, e) == 0
    ensures Tree(ns', home[ino := Home(p, e, DepthOf(home, p) + 1)])
  {
    hide Shapes, Ino, NameOf, Targets, Entered, Homes, DotDots;
    AddHomes(ns, ns', home, p, e, ino, name, node);
    AddTargets(ns, ns', p, e, ino, name, node);
    AddEntered(ns, ns', home, p, e, ino, name, node);
    AddDotDots(ns, ns', home, p, e, ino, name, node);
  }

  // Creating a name keeps the system consistent.
  lemma CreateSystem(f: seq<File>, f': seq<File>, t: seq<Inode>, t': seq<Inode>, p: nat, e: nat, ino: nat, name: Name,
      typ: u32, j: nat)
    requires System(f, t) && p < INUM && f[p].typ == TYPE_DIR && 0 < ino < INUM && typ != TYPE_NONE
    requires Created(f, f', p, e, ino, name, typ) && LookupIno(f[p].data, name) == 0
    requires RefsBy(t, t', multiset{j}) && j < |t| && t'[j].no == ino
    requires forall l: nat | l < |t| && t[l].ref >= 1 :: t[l].no < INUM && f[t[l].no].typ != TYPE_NONE
    ensures System(f', t')
  {
    hide Tree, Created, Marks, WholeEntries, NodeOf;
    var ns, ns' := NodesOf(f), NodesOf(f');
    var home :| Tree(ns, home) && Marks(ns, t, home);
    CreatedTree(f, f', home, p, e, ino, name, typ);
    var h := Home(p, e, DepthOf(home, p) + 1);
    HeldNodes(f, t);
    hide NodesOf;
    AddMarks(ns, ns', t, t', home, ino, h, j);
  }

  lemma CreatedTree(f: seq<File>, f': seq<File>, home: map<nat, Home>, p: nat, e: nat, ino: nat, name: Name, typ: u32)
    requires |f| == INUM && Tree(NodesOf(f), home) && WholeEntries(f)
    requires p < INUM && f[p].typ == TYPE_DIR && 0 < ino < INUM && typ != TYPE_NONE
    requires Created(f, f', p, e, ino, name, typ) && LookupIno(f[p].data, name) == 0
    ensures |f'| == INUM && WholeEntries(f') && ino != ROOT_INO && NodesOf(f)[ino].Free?
    ensures Tree(NodesOf(f'), home[ino := Home(p, e, DepthOf(home, p) + 1)])
    ensures forall d: nat | d < INUM && d != ino ::
      (NodesOf(f')[d].Free? <==> NodesOf(f)[d].Free?) && (IsDir(NodesOf(f'), d) <==> IsDir(NodesOf(f), d))
  {
    hide Tree, EntriesOf, LookupIno, FreeEntry, EntrySet, OnlyDots;
    var ns, ns' := NodesOf(f), NodesOf(f');
    CreatedNodes(f, f', p, e, ino, name, typ);
    NotFound(f[p].data, name);
    FreeEntryEntries(f[p].data, e);
    CreatedWhole(f, f', p, e, ino, name, typ);
    var es := EntriesOf(f[p].data);
    assert ns[p] == Dir(es) && ns[ino].Free? && IsDir(ns, p);
    AddedKinds(ns, ino, p, NewNode(ino, p, typ), PutEntry(es, e, Entry(ino, name)));
    hide NodesOf, Created, EntriesOf, WholeEntries, LookupIno, FreeEntry, EntrySet, OnlyDots;
    FreeInTree(ns, home, p, es, e, ino, name);
    hide Ino, NameOf, Shapes, Tree;
    CreateAdds(ns, p, e, ino, name, NewNode(ino, p, typ));
    AddShapes(ns, ns', p, e, ino, name, NewNode(ino, p, typ));
    AddTree(ns, ns', home, p, e, ino, name, NewNode(ino, p, typ));
  }

  lemma CreatedWhole(f: seq<File>, f': seq<File>, p: nat, e: nat, ino: nat, name: seq<byte>, typ: u32)
    requires |f| == INUM && p < INUM && 0 < ino < INUM && WholeEntries(f) && Created(f, f', p, e, ino, name, typ)
    ensures WholeEntries(f')
  {
    hide EntIno, EntName, FreeEntry;
    forall d: nat | d < |f'| && f'[d].typ == TYPE_DIR ensures |f'[d].data| % DIRENT_SIZE == 0 {}
  }

  lemma AddedKinds(ns: seq<Node>, ino: nat, p: nat, node: Node, es: seq<Entry>)
    requires ino < |ns| && IsDir(ns, p)
    ensures var ns' := ns[ino := node][p := Dir(es)];
      forall d: nat | d < |ns| && d != ino :: (ns'[d].Free? <==> ns[d].Free?) && (IsDir(ns', d) <==> IsDir(ns, d))
  {}

  // In a directory of the tree an unused entry comes after the dots.
  lemma FreeInTree(ns: seq<Node>, home: map<nat, Home>, p: nat, es: seq<Entry>, e: nat, ino: nat, name: seq<byte>)
    requires Tree(ns, home) && p < INUM && ns[p] == Dir(es) && e <= |es| && 0 < ino < INUM && ns[ino].Free?
    requires (e < |es| ==> es[e].ino == 0)
    requires forall k | 0 <= k < |es| && es[k].ino != 0 :: es[k].name != name
    ensures 0 < p && 2 <= e && Ino(ns, p, e) == 0 && Shapes(ns) && !IsDir(ns, ino) && ino != ROOT_INO
    ensures forall k: nat | Ino(ns, p, k) != 0 :: NameOf(ns, p, k) != name
  {
    hide Targets, Entered, Homes, DotDots;
    assert IsDir(ns, p);
    assert Ino(ns, p, 0) != 0 && Ino(ns, p, 1) != 0 && Ino(ns, p, 0) == p;
  }

  lemma HeldNodes(f: seq<File>, t: seq<Inode>)
    requires forall l: nat | l < |t| && t[l].ref >= 1 :: t[l].no < |f| && f[t[l].no].typ != TYPE_NONE
    ensures forall l: nat | l < |t| && t[l].ref >= 1 :: t[l].no < |f| && !NodesOf(f)[t[l].no].Free?
  {}

  lemma AddMarks(ns: seq<Node>, ns': seq<Node>, t: seq<Inode>, t': seq<Inode>, home: map<nat, Home>, ino: nat, h: Home,
      j: nat)
    requires |ns| == INUM && |ns'| == INUM && Marks(ns, t, home) && ino < INUM && ns[ino].Free? && ino != ROOT_INO
    requires forall d: nat | d < INUM && d != ino ::
      (ns'[d].Free? <==> ns[d].Free?) && (IsDir(ns', d) <==> IsDir(ns, d))
    requires RefsBy(t, t', multiset{j}) && j < |t| && t'[j].no == ino
    requires forall l: nat | l < |t| && t[l].ref >= 1 :: t[l].no < INUM && !ns[t[l].no].Free?
    ensures Marks(ns', t', home[ino := h])
  {
    var home' := home[ino := h];
    forall l: nat | Unlinked(t', l) ensures t'[l].no !in home' && t'[l].no != ROOT_INO && !IsDir(ns', t'[l].no) {
      assert t'[l].ref == t[l].ref + multiset{j}[l];
      assert Unlinked(t, l);
    }
    forall i: nat | i < INUM && !ns'[i].Free? && i != ROOT_INO && i !in home' ensures Held(t', i) {
      assert Held(t, i);
      var l: nat :| Unlinked(t, l) && t[l].no == i;
      assert t'[l].ref == t[l].ref + multiset{j}[l];
      assert Unlinked(t', l);
    }
  }

  // ---- what a consistent system says about references ----

  // Taking references leaves the system consistent.
  lemma SystemRefs(f: seq<File>, t: seq<Inode>, t': seq<Inode>, got: multiset<nat>)
    requires System(f, t) && RefsBy(t, t', got)
    ensures System(f, t')
  {
    hide Tree, NodesOf, WholeEntries;
    var home :| Tree(NodesOf(f), home) && Marks(NodesOf(f), t, home);
    var ns := NodesOf(f);
    forall l: nat | Unlinked(t', l) ensures t'[l].no !in home && t'[l].no != ROOT_INO && !IsDir(ns, t'[l].no) {
      assert t'[l].ref == t[l].ref + got[l];
      assert Unlinked(t, l);
    }
    forall i: nat | i < INUM && !ns[i].Free? && i != ROOT_INO && i !in home ensures Held(t', i) {
      var l: nat :| Unlinked(t, l) && t[l].no == i;
      assert t'[l].ref == t[l].ref + got[l];
      assert Unlinked(t', l);
    }
    assert Marks(ns, t', home);
  }

  lemma SystemWhole(f: seq<File>, t: seq<Inode>, d: nat)
    requires System(f, t) && d < INUM && f[d].typ == TYPE_DIR
    ensures Followable(f, d)
  {
    hide Marks;
    var home :| Tree(NodesOf(f), home) && Marks(NodesOf(f), t, home);
    hide Tree, NodesOf;
    Followed(f, home, d);
  }

  lemma SystemRoot(f: seq<File>, t: seq<Inode>)
    requires System(f, t)
    ensures |f| == INUM && f[ROOT_INO].typ == TYPE_DIR && f[0].typ == TYPE_NONE
  {
    var home :| Tree(NodesOf(f), home) && Marks(NodesOf(f), t, home);
    hide Shapes, Targets, Entered, Homes, DotDots;
    assert NodesOf(f)[ROOT_INO] == NodeOf(f[ROOT_INO]);
    assert NodesOf(f)[0] == NodeOf(f[0]);
  }

  // An open directory, and an inode that some name leads to, is not marked for deletion.
  lemma DirNotUnlinked(f: seq<File>, t: seq<Inode>, j: nat)
    requires System(f, t) && j < |t| && t[j].ref >= 1 && t[j].no < INUM && f[t[j].no].typ == TYPE_DIR
    ensures !t[j].del
  {
    hide Tree;
    var home :| Tree(NodesOf(f), home) && Marks(NodesOf(f), t, home);
    assert IsDir(NodesOf(f), t[j].no);
    assert t[j].del ==> Unlinked(t, j);
  }

  lemma NamedNotUnlinked(f: seq<File>, t: seq<Inode>, d: nat, name: seq<byte>, j: nat)
    requires System(f, t) && d < INUM && f[d].typ == TYPE_DIR && LookupIno(f[d].data, name) != 0
    requires j < |t| && t[j].ref >= 1 && t[j].no == LookupIno(f[d].data, name)
    ensures !t[j].del
  {
    var ns := NodesOf(f);
    var home :| Tree(ns, home) && Marks(ns, t, home);
    var k := EntryFrom(f[d].data, name, 0);
    assert Ino(ns, d, k) == t[j].no;
    hide NodesOf, Ino, NameOf;
    DotsNameDirs(ns, home, d, k);
    assert t[j].del ==> Unlinked(t, j);
  }

  lemma DotsNameDirs(ns: seq<Node>, home: map<nat, Home>, d: nat, k: nat)
    requires Tree(ns, home) && Ino(ns, d, k) != 0
    ensures if k >= 2 then Ino(ns, d, k) in home else IsDir(ns, Ino(ns, d, k))
  {
    assert IsDir(ns, d);
    if k == 1 && d != ROOT_INO {
      var p := home[d].dir;
      assert Ino(ns, p, home[d].entry) == d;
      assert IsDir(ns, p);
    }
  }

  // ---- removal ----

  // Entry e of directory p is cleared; inode i, which it named, stays or goes.
  ghost predicate EntryCleared(ns: seq<Node>, ns': seq<Node>, p: nat, e: nat, i: nat, gone: bool) {
    && |ns'| == |ns| && p < |ns| && i < |ns| && p != i && 0 < i
    && Ino(ns, p, e) == i && e >= 2
    && (if gone then ns'[i].Free? else ns'[i] == ns[i] && ns[i].Leaf?)
    && (ns[i].Leaf? || forall k: nat | k >= 2 :: Ino(ns, i, k) == 0)
    && (forall d: nat | d < |ns| && d != i :: (ns'[d].Free? <==> ns[d].Free?) && (IsDir(ns', d) <==> IsDir(ns, d)))
    && (forall d: nat, k: nat ::
      Ino(ns', d, k) == if (d == p && k == e) || (d == i && gone) then 0 else Ino(ns, d, k))
    && (forall d: nat, k: nat | Ino(ns', d, k) != 0 && Ino(ns, d, k) != 0 :: NameOf(ns', d, k) == NameOf(ns, d, k))
  }

  lemma ClearedByUpdate(ns: seq<Node>, p: nat, e: nat, i: nat, gone: bool)
    requires IsDir(ns, p) && i < |ns| && p != i && 0 < i && e < |ns[p].entries| && Ino(ns, p, e) == i && e >= 2
    requires ns[i].Leaf? || (gone && forall k: nat | k >= 2 :: Ino(ns, i, k) == 0)
    ensures var ns1 := ns[p := Dir(PutEntry(ns[p].entries, e, Entry(0, [])))];
      EntryCleared(ns, if gone then ns1[i := Free] else ns1, p, e, i, gone)
  {}

  lemma ClearShapes(ns: seq<Node>, ns': seq<Node>, p: nat, e: nat, i: nat, gone: bool)
    requires EntryCleared(ns, ns', p, e, i, gone) && Shapes(ns)
    ensures Shapes(ns')
  {
    hide Ino;
    forall d: nat | IsDir(ns', d)
      ensures Ino(ns', d, 0) == d && d != 0 && NameOf(ns', d, 0) == DOT
      ensures Ino(ns', d, 1) != 0 && NameOf(ns', d, 1) == DOTDOT
    {
      if d != i { assert IsDir(ns, d); }
    }
    forall d: nat, k: nat, l: nat | Ino(ns', d, k) != 0 && Ino(ns', d, l) != 0 && NameOf(ns', d, k) == NameOf(ns', d, l)
      ensures k == l
    {
      assert NameOf(ns', d, k) == NameOf(ns, d, k) && NameOf(ns', d, l) == NameOf(ns, d, l);
    }
  }

  // Apart from its one entry, only i itself and its children could name i.
  lemma OnlyEntry(ns: seq<Node>, home: map<nat, Home>, p: nat, e: nat, i: nat, d: nat, k: nat)
    requires Tree(ns, home) && Ino(ns, p, e) == i && e >= 2 && i != 0 && i < |ns|
    requires ns[i].Leaf? || forall k: nat | k >= 2 :: Ino(ns, i, k) == 0
    requires Ino(ns, d, k) == i
    ensures (d == p && k == e) || (d == i && k == 0)
  {
    hide NameOf;
    assert home[i].dir == p && home[i].entry == e;
    assert IsDir(ns, d);
    assert d != ROOT_INO ==> Ino(ns, home[d].dir, home[d].entry) == d && home[d].entry >= 2;
  }

  lemma ClearTargets(ns: seq<Node>, ns': seq<Node>, home: map<nat, Home>, p: nat, e: nat, i: nat, gone: bool)
    requires Tree(ns, home) && EntryCleared(ns, ns', p, e, i, gone)
    ensures Targets(ns')
  {
    hide Ino, NameOf, Shapes, Entered, Homes, DotDots;
    forall d: nat, k: nat | Ino(ns', d, k) != 0
      ensures Ino(ns', d, k) < |ns'| && !ns'[Ino(ns', d, k)].Free?
    {
      if Ino(ns, d, k) == i { OnlyEntry(ns, home, p, e, i, d, k); }
    }
  }

  lemma ClearEntered(ns: seq<Node>, ns': seq<Node>, home: map<nat, Home>, p: nat, e: nat, i: nat, gone: bool)
    requires Entered(ns, home) && EntryCleared(ns, ns', p, e, i, gone)
    ensures Entered(ns', home - {i})
  {
    hide Ino, NameOf;
  }

  lemma ClearHomes(ns: seq<Node>, ns': seq<Node>, home: map<nat, Home>, p: nat, e: nat, i: nat, gone: bool)
    requires Entered(ns, home) && Homes(ns, home) && EntryCleared(ns, ns', p, e, i, gone)
    ensures Homes(ns', home - {i})
  {
    assert ns[i].Leaf? ==> forall k: nat :: Ino(ns, i, k) == 0;
    hide Ino, NameOf;
    var home' := home - {i};
    forall j | j in home'
      ensures 0 < j && home'[j].entry >= 2 && Ino(ns', home'[j].dir, home'[j].entry) == j
      ensures home'[j].depth == DepthOf(home', home'[j].dir) + 1
    {
      assert Ino(ns, home[j].dir, home[j].entry) == j;
      assert home[j].dir != i;
    }
  }

  lemma ClearDotDots(ns: seq<Node>, ns': seq<Node>, home: map<nat, Home>, p: nat, e: nat, i: nat, gone: bool)
    requires DotDots(ns, home) && i != ROOT_INO && EntryCleared(ns, ns', p, e, i, gone)
    ensures DotDots(ns', home - {i})
  {
    hide NameOf;
    forall d: nat | IsDir(ns', d) && d != ROOT_INO ensures d in home - {i} && Ino(ns', d, 1) == home[d].dir {
      assert d != i && IsDir(ns, d);
    }
  }

  lemma ClearTree(ns: seq<Node>, ns': seq<Node>, home: map<nat, Home>, p: nat, e: nat, i: nat, gone: bool)
    requires Tree(ns, home) && EntryCleared(ns, ns', p, e, i, gone)
    ensures Tree(ns', home - {i}) && i in home && i != ROOT_INO
  {
    ClearTargets(ns, ns', home, p, e, i, gone);
    assert i in home;
    assert ns'[0].Free? && IsDir(ns', ROOT_INO);
    hide Shapes, Ino, NameOf, Targets, Entered, Homes, DotDots, EntryCleared;
    ClearShapes(ns, ns', p, e, i, gone);
    ClearEntered(ns, ns', home, p, e, i, gone);
    ClearHomes(ns, ns', home, p, e, i, gone);
    ClearDotDots(ns, ns', home, p, e, i, gone);
  }

  // Entry e of directory p, which named inode i, is zeroed; if nobody held i it is gone as well.
  ghost predicate Removed(f: seq<File>, f': seq<File>, p: nat, e: nat, i: nat, gone: bool)
    requires |f| == INUM && p < INUM && i < INUM
  {
    && |f'| == INUM && p != i && EntrySet(f[p].data, f'[p].data, e, 0, []) && e < Count(f[p].data)
    && f' == (if gone then f[i := NO_FILE] else f)[p := f[p].(data := f'[p].data)]
  }

  lemma RemovedTree(f: seq<File>, f': seq<File>, home: map<nat, Home>, p: nat, e: nat, i: nat, gone: bool)
    requires |f| == INUM && WholeEntries(f) && Tree(NodesOf(f), home) && p < INUM && 0 < i < INUM
    requires f[p].typ == TYPE_DIR && Removed(f, f', p, e, i, gone)
    requires EntIno(f[p].data, e) == i && e >= 2
    requires if f[i].typ == TYPE_DIR then gone && NoEntries(f[i].data) else f[i].typ != TYPE_NONE
    ensures |f'| == INUM && WholeEntries(f') && Tree(NodesOf(f'), home - {i}) && i in home && i != ROOT_INO
    ensures forall d: nat | d < INUM && d != i ::
      (NodesOf(f')[d].Free? <==> NodesOf(f)[d].Free?) && (IsDir(NodesOf(f'), d) <==> IsDir(NodesOf(f), d))
    ensures if gone then NodesOf(f')[i].Free? else NodesOf(f')[i].Leaf?
  {
    hide Tree, LookupIno, EntriesOf, EntrySet, EntIno, EntName, PutEntry, NodeOf;
    var ns, ns' := NodesOf(f), NodesOf(f');
    NodeEntry(f, p, e);
    if f[i].typ == TYPE_DIR { EmptyNode(f, i); } else { LeafNode(f, i); }
    RemovedWhole(f, f', p, e, i, gone);
    RemovedNodes(f, f', p, e, i, gone);
    var ns1 := ns[p := Dir(PutEntry(ns[p].entries, e, Entry(0, [])))];
    hide NodesOf, WholeEntries, NoEntries, Removed;
    ClearedByUpdate(ns, p, e, i, gone);
    ClearTree(ns, ns', home, p, e, i, gone);
  }

  lemma RemovedNodes(f: seq<File>, f': seq<File>, p: nat, e: nat, i: nat, gone: bool)
    requires |f| == INUM && p < INUM && 0 < i < INUM && f[p].typ == TYPE_DIR && Removed(f, f', p, e, i, gone)
    ensures var ns1 := NodesOf(f)[p := Dir(PutEntry(EntriesOf(f[p].data), e, Entry(0, [])))];
      NodesOf(f') == if gone then ns1[i := Free] else ns1
  {
    var ns1 := NodesOf(f)[p := Dir(PutEntry(EntriesOf(f[p].data), e, Entry(0, [])))];
    EntrySetEntries(f[p].data, f'[p].data, e, 0, []);
    hide EntrySet, EntIno, EntName, PutEntry, EntriesOf;
    var want := if gone then ns1[i := Free] else ns1;
    forall d: nat | d < INUM ensures NodesOf(f')[d] == want[d] {}
  }

  lemma LeafNode(f: seq<File>, i: nat)
    requires i < |f| && f[i].typ != TYPE_DIR && f[i].typ != TYPE_NONE
    ensures NodesOf(f)[i].Leaf?
  {}

  lemma NodeEntry(f: seq<File>, d: nat, k: nat)
    requires d < |f| && f[d].typ == TYPE_DIR && k < Count(f[d].data)
    ensures NodesOf(f)[d] == Dir(EntriesOf(f[d].data)) && Ino(NodesOf(f), d, k) == EntIno(f[d].data, k)
  {}

  lemma EmptyNode(f: seq<File>, i: nat)
    requires i < |f| && f[i].typ == TYPE_DIR && NoEntries(f[i].data)
    ensures forall k: nat | k >= 2 :: Ino(NodesOf(f), i, k) == 0
  {}

  lemma RemovedWhole(f: seq<File>, f': seq<File>, p: nat, e: nat, i: nat, gone: bool)
    requires |f| == INUM && WholeEntries(f) && p < INUM && i < INUM && Removed(f, f', p, e, i, gone)
      && f[p].typ == TYPE_DIR
    ensures WholeEntries(f')
  {
    hide EntIno, EntName;
    forall d: nat | d < |f'| && f'[d].typ == TYPE_DIR ensures |f'[d].data| % DIRENT_SIZE == 0 {}
  }

  // No entry after "." and "..".
  ghost predicate NoEntries(c: seq<byte>) {
    forall k: nat | 2 <= k < Count(c) :: EntIno(c, k) == 0
  }

  // From t to v references are the same; slot j, if it is a slot, is now marked for deletion.
  ghost predicate MarkedBy(t: seq<Inode>, v: seq<Inode>, j: int) {
    && |v| == |t|
    && (forall l: nat | l < |t| :: v[l].ref == t[l].ref)
    && (forall l: nat | l < |t| && t[l].ref >= 1 :: v[l].no == t[l].no && v[l].del == (t[l].del || l == j))
  }

  // Removing a name keeps the system consistent, unless it was the name of an open directory.
  lemma RemoveSystem(f: seq<File>, f': seq<File>, t: seq<Inode>, v: seq<Inode>, p: nat, e: nat, i: nat, j: int)
    requires System(f, t) && p < INUM && 0 < i < INUM && f[p].typ == TYPE_DIR
    requires Removed(f, f', p, e, i, j < 0) && EntIno(f[p].data, e) == i && e >= 2
    requires if f[i].typ == TYPE_DIR then j < 0 && NoEntries(f[i].data) else f[i].typ != TYPE_NONE
    requires MarkedBy(t, v, j) && (j >= 0 ==> j < |t| && t[j].ref >= 1 && t[j].no == i)
    ensures System(f', v)
  {
    hide Tree, Removed, WholeEntries, NodesOf;
    var home :| Tree(NodesOf(f), home) && Marks(NodesOf(f), t, home);
    RemovedTree(f, f', home, p, e, i, j < 0);
    ClearMarks(NodesOf(f), NodesOf(f'), t, v, home, i, j);
  }

  lemma ClearMarks(ns: seq<Node>, ns': seq<Node>, t: seq<Inode>, v: seq<Inode>, home: map<nat, Home>, i: nat, j: int)
    requires |ns| == INUM && |ns'| == INUM && Marks(ns, t, home) && i < INUM && i in home && i != ROOT_INO
    requires forall d: nat | d < INUM && d != i :: (ns'[d].Free? <==> ns[d].Free?) && (IsDir(ns', d) <==> IsDir(ns, d))
    requires if j < 0 then ns'[i].Free? else ns'[i].Leaf?
    requires MarkedBy(t, v, j) && (j >= 0 ==> j < |t| && t[j].ref >= 1 && t[j].no == i)
    ensures Marks(ns', v, home - {i})
  {
    forall l: nat | Unlinked(v, l) ensures v[l].no !in home - {i} && v[l].no != ROOT_INO && !IsDir(ns', v[l].no) {
      assert v[l].ref == t[l].ref;
      if l != j { assert Unlinked(t, l); }
    }
    forall x: nat | x < INUM && !ns'[x].Free? && x != ROOT_INO && x !in home - {i} ensures Held(v, x) {
      if x == i {
        assert Unlinked(v, j);
      } else {
        assert Held(t, x);
        var l: nat :| Unlinked(t, l) && t[l].no == x;
        assert v[l].ref == t[l].ref;
        assert Unlinked(v, l);
      }
    }
  }

  // ---- data and the last close ----

  // Writing or truncating anything but a directory leaves the tree alone.
  lemma DataSystem(f: seq<File>, t: seq<Inode>, i: nat, d: seq<byte>)
    requires System(f, t) && i < INUM && f[i].typ != TYPE_DIR
    ensures System(f[i := f[i].(data := d)], t)
  {
    hide Tree, Marks, EntriesOf;
    var f' := f[i := f[i].(data := d)];
    assert NodesOf(f') == NodesOf(f);
    var home :| Tree(NodesOf(f), home) && Marks(NodesOf(f), t, home);
    assert Tree(NodesOf(f'), home) && Marks(NodesOf(f'), t, home);
  }

  // The last close of an unlinked inode frees an inode that no name leads to.
  lemma CloseSystem(f: seq<File>, t: seq<Inode>, t': seq<Inode>, ip: nat)
    requires System(f, t) && ip < |t| && t[ip].ref >= 1 && t[ip].no < INUM
    requires |t'| == |t| && t' == t[ip := t'[ip]] && t'[ip].ref == t[ip].ref - 1 && t'[ip].no == t[ip].no
      && t'[ip].del == t[ip].del
    requires forall l: nat | l < |t| && t[l].ref >= 1 && t[l].no == t[ip].no :: l == ip
    ensures System(if t[ip].ref == 1 && t[ip].del then f[t[ip].no := NO_FILE] else f, t')
  {
    hide Tree;
    var ns := NodesOf(f);
    var home :| Tree(ns, home) && Marks(ns, t, home);
    var i := t[ip].no;
    if t[ip].del { assert Unlinked(t, ip); }
    if t[ip].ref == 1 && t[ip].del {
      var f' := f[i := NO_FILE];
      assert NodesOf(f') == ns[i := Free];
      assert WholeEntries(f');
      FreeTree(ns, home, i);
      hide NodesOf, WholeEntries;
      CloseMarks(ns, ns[i := Free], t, t', home, ip);
    } else {
      hide NodesOf, WholeEntries;
      CloseMarks(ns, ns, t, t', home, ip);
    }
  }

  lemma CloseMarks(ns: seq<Node>, ns': seq<Node>, t: seq<Inode>, t': seq<Inode>, home: map<nat, Home>, ip: nat)
    requires |ns| == INUM && Marks(ns, t, home) && ip < |t| && t[ip].ref >= 1 && t[ip].no < INUM
    requires |t'| == |t| && t' == t[ip := t'[ip]] && t'[ip].ref == t[ip].ref - 1 && t'[ip].no == t[ip].no
      && t'[ip].del == t[ip].del
    requires ns' == if t[ip].ref == 1 && t[ip].del then ns[t[ip].no := Free] else ns
    ensures Marks(ns', t', home)
  {
    forall l: nat | Unlinked(t', l) ensures t'[l].no !in home && t'[l].no != ROOT_INO && !IsDir(ns', t'[l].no) {
      assert Unlinked(t, l);
    }
    forall x: nat | x < INUM && !ns'[x].Free? && x != ROOT_INO && x !in home ensures Held(t', x) {
      assert Held(t, x);
      var l: nat :| Unlinked(t, l) && t[l].no == x;
      assert Unlinked(t', l);
    }
  }

  lemma FreeTree(ns: seq<Node>, home: map<nat, Home>, i: nat)
    requires Tree(ns, home) && i < INUM && i !in home && i != ROOT_INO && !IsDir(ns, i)
    ensures Tree(ns[i := Free], home)
  {
    var ns' := ns[i := Free];
    forall d: nat, k: nat ensures Ino(ns', d, k) == Ino(ns, d, k) {}
    forall d: nat ensures IsDir(ns', d) <==> IsDir(ns, d) {}
    hide Entered, Homes, DotDots;
    FreeShapes(ns, ns');
    assert Targets(ns') by {
      forall d: nat, k: nat | Ino(ns', d, k) != 0 ensures Ino(ns', d, k) < |ns'| && !ns'[Ino(ns', d, k)].Free? {
        DotsNameDirs(ns, home, d, k);
      }
    }
    FreeRest(ns, ns', home);
  }

  lemma FreeShapes(ns: seq<Node>, ns': seq<Node>)
    requires Shapes(ns) && forall d: nat :: IsDir(ns', d) ==> IsDir(ns, d) && ns'[d] == ns[d]
    ensures Shapes(ns')
  {
    forall d: nat, k: nat, l: nat | Ino(ns', d, k) != 0 && Ino(ns', d, l) != 0 && NameOf(ns', d, k) == NameOf(ns', d, l)
      ensures k == l
    {
      assert Ino(ns, d, k) == Ino(ns', d, k) && Ino(ns, d, l) == Ino(ns', d, l);
      assert NameOf(ns, d, k) == NameOf(ns', d, k) && NameOf(ns, d, l) == NameOf(ns', d, l);
    }
  }

  lemma FreeRest(ns: seq<Node>, ns': seq<Node>, home: map<nat, Home>)
    requires Entered(ns, home) && Homes(ns, home) && DotDots(ns, home)
    requires forall d: nat, k: nat :: Ino(ns', d, k) == Ino(ns, d, k)
    requires forall d: nat :: IsDir(ns', d) <==> IsDir(ns, d)
    ensures Entered(ns', home) && Homes(ns', home) && DotDots(ns', home)
  {
    hide Ino, IsDir;
  }
}

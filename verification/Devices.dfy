// kernel/src/dev.c, and iadddev of fs.c (lines 521-527): the device nodes that exist from boot on.
module Devices {
  import opened Bytes
  import opened Layout
  import opened Ownership
  import opened Files
  import opened Dirents
  import opened Inodes
  import opened Directories
  import opened Paths
  import opened Namespace
  import opened Namei
  import opened OpenFiles

  const SERIAL_DEV := 0
  const NULL_DEV := 1
  const DEV_NUM := 2

  // dev, serial and null; /dev, /dev/serial and /dev/null
  const DEV_NAME: Name := [100, 101, 118]
  const SERIAL_NAME: Name := [115, 101, 114, 105, 97, 108]
  const NULL_NAME: Name := [110, 117, 108, 108]
  const DEV_DIR: seq<byte> := [SLASH] + DEV_NAME
  const DEV_SERIAL: seq<byte> := DEV_DIR + [SLASH] + SERIAL_NAME
  const DEV_NULL: seq<byte> := DEV_DIR + [SLASH] + NULL_NAME

  // What iadddev(path, id) did: the file was opened, or created as a device, and has number id.
  ghost predicate DeviceAdded(f: seq<File>, f': seq<File>, path: seq<byte>, cwd: nat, id: u32) {
    |f| == INUM && exists g: seq<File>, i: nat ::
      OpenedPath(f, g, path, cwd, TYPE_DEV, i) && 0 < i < |g| && f' == g[i := g[i].(device := id)]
  }

  method Iadddev(ft: FileTable, path: seq<byte>, id: u32, cwd: nat, ghost cwds: multiset<nat>)
    returns (r: Outcome<()>)
    requires ft.Valid(cwds) && Ready(ft.fs, cwd) && 0 !in path
    modifies ft.fs`own, ft.fs.inodes, ft.fs.disk.cache, ft.fs.disk.sectors
    ensures r.Abort? && !Exhausted(ft.fs, old(ft.fs.F())) ==>
      OpenedPath(old(ft.fs.F()), old(ft.fs.F()), path, old(ft.fs.inodes[cwd].no), TYPE_DEV, 0)
    ensures r.Done? ==> ft.Valid(cwds) && ft.fs.inodes[cwd].no == old(ft.fs.inodes[cwd].no)
    ensures r.Done? ==> DeviceAdded(old(ft.fs.F()), ft.fs.F(), path, old(ft.fs.inodes[cwd].no), id)
  {
    hide Exhausted, Inodes.Fs.Valid, Inodes.Fs.Raw, Inodes.Fs.V, Inodes.Fs.F, FilesOf, ViewOf, System, Accounted,
      Holds, Hold, Owned, SoundInodes, TableOk, Deleted, Writers, OpenedPath, Comps, SameRefs, RefsBy, TypesKept;
    var fs := ft.fs;
    fs.Sound();
    ghost var t0, f0 := fs.inodes[..], fs.F();
    LiveAllocated(fs);
    var o := Iopen(fs, path, TYPE_DEV, cwd);
    if o.Abort? { return Abort; }
    fs.Sound();
    if o.value.None? {
      NotOpened(f0, fs.F(), path, t0[cwd].no);
      return Abort;    // the assertion in iadddev
    }
    var ip := o.value.value;
    fs.Mirror(ip);
    ghost var t1, g, i := fs.inodes[..], fs.F(), fs.inodes[ip].no;
    OpenedTypes(f0, g, t0, t1, path, t0[cwd].no, TYPE_DEV, i, multiset{ip});
    fs.SetDevice(ip, id);
    fs.Sound();
    LiveStays(t1, fs.inodes[..], ip);
    NumberSystem(g, t1, fs.inodes[..], i, id);
    RefsKept(t0, t1, fs.inodes[..], multiset{ip});
    NumberTypes(f0, t0, g, t1, fs.inodes[..], i, id);
    ft.NotTaken(ip, t0, f0, cwds);
    fs.Sound();
    StaysOpen(f0, t0, fs.F(), fs.inodes[..], cwd);
    return Done(());
  }

  lemma StaysOpen(f: seq<File>, t: seq<Inode>, f': seq<File>, t': seq<Inode>, cwd: nat)
    requires TypesKept(f, t, f', t') && cwd < |t| && t[cwd].ref >= 1
    ensures cwd < |t'| && t'[cwd].no == t[cwd].no
  {}

  lemma NotOpened(f: seq<File>, f': seq<File>, path: seq<byte>, cwd: nat)
    requires |f| == INUM && OpenedPath(f, f', path, cwd, TYPE_DEV, 0)
    ensures f' == f
  {
    hide Comps, LookupIno;
  }

  // A device number means nothing to the tree of names.
  lemma NumberSystem(f: seq<File>, t: seq<Inode>, t': seq<Inode>, i: nat, id: u32)
    requires System(f, t) && SameRefs(t, t') && i < INUM
    ensures |f| == INUM && System(f[i := f[i].(device := id)], t')
  {
    var f' := f[i := f[i].(device := id)];
    assert NodesOf(f') == NodesOf(f);
    assert System(f', t);
    SystemSame(f', t, t');
  }

  lemma NumberTypes(f0: seq<File>, t0: seq<Inode>, f: seq<File>, t: seq<Inode>, t': seq<Inode>, i: nat, id: u32)
    requires TypesKept(f0, t0, f, t) && SameRefs(t, t') && i < |f|
    ensures TypesKept(f0, t0, f[i := f[i].(device := id)], t')
  {}

  // iclose(iopen("/dev", TYPE_DIR))
  method MakeDevDir(ft: FileTable, cwd: nat, ghost cwds: multiset<nat>) returns (r: Outcome<()>, ghost d: nat)
    requires ft.Valid(cwds) && Ready(ft.fs, cwd)
    modifies ft.fs`own, ft.fs.inodes, ft.fs.disk.cache, ft.fs.disk.sectors
    ensures r.Abort? ==> Exhausted(ft.fs, old(ft.fs.F()))
    ensures r.Done? ==> ft.Valid(cwds) && ft.fs.inodes[cwd].no == old(ft.fs.inodes[cwd].no) && d != 0
    ensures r.Done? ==> OpenedPath(old(ft.fs.F()), ft.fs.F(), DEV_DIR, old(ft.fs.inodes[cwd].no), TYPE_DIR, d)
  {
    hide Exhausted, Inodes.Fs.Valid, Inodes.Fs.Raw, Inodes.Fs.V, Inodes.Fs.F, FilesOf, ViewOf, System, Accounted,
      Holds, Hold, Owned, SoundInodes, TableOk, Deleted, Writers, OpenedPath, Comps, SameRefs, RefsBy, TypesKept;
    var fs := ft.fs;
    d := 0;
    fs.Sound();
    ghost var t0, f0 := fs.inodes[..], fs.F();
    LiveAllocated(fs);
    SystemRoot(f0, t0);
    var o := Iopen(fs, DEV_DIR, TYPE_DIR, cwd);
    if o.Abort? { return Abort, 0; }
    fs.Sound();
    if o.value.None? {
      InRoot(f0, fs.F(), t0[cwd].no, TYPE_DIR, 0);
      assert false;
    } else {
      var ip := o.value.value;
      fs.Mirror(ip);
      d := fs.inodes[ip].no;
      OpenedTypes(f0, fs.F(), t0, fs.inodes[..], DEV_DIR, t0[cwd].no, TYPE_DIR, d, multiset{ip});
      ft.NotTaken(ip, t0, f0, cwds);
      fs.Sound();
      StaysOpen(f0, t0, fs.F(), fs.inodes[..], cwd);
    }
    return Done(()), d;
  }

  lemma PathOf(a: seq<byte>, b: seq<byte>)
    requires a != [] && SLASH !in a && b != [] && SLASH !in b
    ensures Comps([SLASH] + a) == [Cut(a)] && Comps([SLASH] + a + [SLASH] + b) == [Cut(a), Cut(b)]
  {
    hide Comps, Cut;
    NoComps();
    CompsSlash([SLASH] + a);
    assert ([SLASH] + a)[1..] == a + [];
    CompsWord(a, []);
    var p := [SLASH] + a + [SLASH] + b;
    CompsSlash(p);
    assert p[1..] == a + ([SLASH] + b);
    CompsWord(a, [SLASH] + b);
    CompsSlash([SLASH] + b);
    assert ([SLASH] + b)[1..] == b + [];
    CompsWord(b, []);
  }

  lemma NoComps()
    ensures Comps([]) == []
  {}

  lemma DevPaths()
    ensures Comps(DEV_DIR) == [DEV_NAME] && Comps(DEV_SERIAL) == [DEV_NAME, SERIAL_NAME]
      && Comps(DEV_NULL) == [DEV_NAME, NULL_NAME]
  {
    hide Comps;
    PathOf(DEV_NAME, SERIAL_NAME);
    PathOf(DEV_NAME, NULL_NAME);
  }

  lemma InRoot(f: seq<File>, f': seq<File>, cwd: nat, typ: u32, ino: nat)
    requires |f| == INUM && f[ROOT_INO].typ == TYPE_DIR && typ != TYPE_NONE
      && OpenedPath(f, f', DEV_DIR, cwd, typ, ino)
    ensures ino != 0
  {
    hide Comps, LookupIno, Created;
    DevPaths();
    assert Comps(DEV_DIR)[..0] == [];
  }

  // ---- what is there after init_dev ----

  // The name of the device directory belongs to something else.
  ghost predicate DevTaken(f: seq<File>) {
    Target(f, DEV_DIR, ROOT_INO) != 0 && !IsDirectory(f, Target(f, DEV_DIR, ROOT_INO))
  }

  // The path leads to an inode with that device number; if it led nowhere before, to a device.
  ghost predicate DeviceAt(f: seq<File>, f': seq<File>, path: seq<byte>, cwd: nat, id: u32) {
    var i := Target(f', path, cwd);
    0 < i < |f'| && f'[i].device == id && (Target(f, path, cwd) == 0 ==> f'[i].typ == TYPE_DEV)
  }

  ghost predicate DevicesUp(f: seq<File>, f': seq<File>) {
    && Kept(f, f') && !DevTaken(f)
    && forall cwd: nat :: DeviceAt(f, f', DEV_SERIAL, cwd, SERIAL_DEV) && DeviceAt(f, f', DEV_NULL, cwd, NULL_DEV)
  }

  // An absolute path leads to the same file from everywhere.
  lemma Absolute(f: seq<File>, path: seq<byte>, cwd: nat)
    requires path != [] && path[0] == SLASH
    ensures Target(f, path, cwd) == Target(f, path, ROOT_INO)
  {}

  lemma {:induction false} NumberResolve(f: seq<File>, i: nat, id: u32, j: nat, cs: seq<seq<byte>>)
    requires i < |f|
    ensures Resolve(f[i := f[i].(device := id)], j, cs) == Resolve(f, j, cs)
    decreases |cs|
  {
    if cs != [] && j < |f| { NumberResolve(f, i, id, LookupIno(f[j].data, cs[0]), cs[1..]); }
  }

  lemma NumberKeeps(f: seq<File>, i: nat, id: u32)
    requires |f| == INUM && i < INUM
    ensures Kept(f, f[i := f[i].(device := id)])
    ensures forall q: seq<byte>, c: nat :: Target(f[i := f[i].(device := id)], q, c) == Target(f, q, c)
  {
    var f' := f[i := f[i].(device := id)];
    forall q: seq<byte>, c: nat ensures Target(f', q, c) == Target(f, q, c) {
      NumberResolve(f, i, id, StartOf(q, c), Comps(q));
    }
    hide Target;
  }

  // What one iadddev does, as later calls see it.
  lemma AddedIsThere(f: seq<File>, f': seq<File>, path: seq<byte>, cwd: nat, id: u32)
    requires 0 !in path && DeviceAdded(f, f', path, cwd, id)
    ensures Kept(f, f') && DeviceAt(f, f', path, cwd, id)
    ensures forall x: nat | x < INUM && x != Target(f', path, cwd) && f[x].typ != TYPE_NONE ::
      f'[x].device == f[x].device
  {
    hide OpenedPath, Target, Kept;
    var g: seq<File>, i: nat :|
      OpenedPath(f, g, path, cwd, TYPE_DEV, i) && 0 < i < |g| && f' == g[i := g[i].(device := id)];
    OpenedKeeps(f, g, path, cwd, TYPE_DEV, i);
    KeptSize(f, g);
    OpenedIsThere(f, g, path, cwd, TYPE_DEV, i);
    NumberKeeps(g, i, id);
    KeptTwice(f, g, f');
    OpenedNew(f, g, path, cwd, i);
  }

  lemma KeptSize(f: seq<File>, f': seq<File>)
    requires Kept(f, f')
    ensures |f| == |f'| == INUM
  {}

  lemma OpenedNew(f: seq<File>, f': seq<File>, path: seq<byte>, cwd: nat, i: nat)
    requires |f| == INUM && 0 !in path && OpenedPath(f, f', path, cwd, TYPE_DEV, i) && 0 < i < |f'|
    ensures Target(f, path, cwd) == 0 ==> f'[i].typ == TYPE_DEV
    ensures forall x: nat | x < INUM && x != i && f[x].typ != TYPE_NONE :: x < |f'| && f'[x].device == f[x].device
  {
    hide Comps, LookupIno, Created, Resolve;
    var p := ParentOf(f, path, cwd);
    OpenedIsThere(f, f', path, cwd, TYPE_DEV, i);
    if Comps(path) != [] && p != 0 {
      ParentIsDir(f, path, cwd);
      if LookupIno(f[p].data, LastName(path)) == 0 {
        var e: nat :| Created(f, f', p, e, i, LastName(path), TYPE_DEV);
        CreatedKinds(f, f', p, e, i, LastName(path), TYPE_DEV);
      }
    }
  }

  // A path of the form /dev/leaf, looked up by hand.
  lemma LeafOf(f: seq<File>, path: seq<byte>, leaf: seq<byte>, cwd: nat)
    requires |f| == INUM && f[ROOT_INO].typ == TYPE_DIR && path != [] && path[0] == SLASH
    requires Comps(path) == [DEV_NAME, leaf]
    ensures Target(f, path, cwd)
      == var p := LookupIno(f[ROOT_INO].data, DEV_NAME);
         if 0 < p < INUM && f[p].typ == TYPE_DIR then LookupIno(f[p].data, leaf) else 0
    ensures ParentOf(f, path, cwd)
      == var p := LookupIno(f[ROOT_INO].data, DEV_NAME); if IsDirectory(f, p) then p else 0
    ensures Target(f, DEV_DIR, cwd) == LookupIno(f[ROOT_INO].data, DEV_NAME)
  {
    DevPaths();
    hide LookupIno, Comps;
    var dev := DEV_NAME;
    var cs, one := [dev, leaf], [dev];
    assert cs[1..] == [leaf] && [leaf][1..] == [] && one[1..] == [] && cs[..1] == one;
    var p := LookupIno(f[ROOT_INO].data, dev);
    assert Resolve(f, ROOT_INO, one) == p;
    assert Resolve(f, p, [leaf]) == if 0 < p < INUM && f[p].typ == TYPE_DIR then LookupIno(f[p].data, leaf) else 0;
    assert Resolve(f, ROOT_INO, cs) == Resolve(f, p, [leaf]);
  }

  lemma NewDirIsEmpty(f: seq<File>, g: seq<File>, cwd: nat, d: nat, path: seq<byte>, leaf: Name)
    requires |f| == INUM && f[ROOT_INO].typ == TYPE_DIR && OpenedPath(f, g, DEV_DIR, cwd, TYPE_DIR, d)
    requires path != [] && path[0] == SLASH && Comps(path) == [DEV_NAME, leaf] && leaf != DOT && leaf != DOTDOT
    requires Target(f, path, cwd) == 0
    ensures Target(g, path, cwd) == 0
  {
    hide Comps, LookupIno, Created;
    if g != f {
      var dev := DEV_NAME;
      DevPaths();
      assert Comps(DEV_DIR)[..0] == [] && ParentOf(f, DEV_DIR, cwd) == ROOT_INO;
      var e: nat :| Created(f, g, ROOT_INO, e, d, dev, TYPE_DIR);
      CreatedKinds(f, g, ROOT_INO, e, d, dev, TYPE_DIR);
      LookupAfterCreate(f, g, ROOT_INO, e, d, dev, TYPE_DIR, dev);
      LeafOf(g, path, leaf, cwd);
      NothingInDots(f, g, ROOT_INO, e, d, dev, leaf);
    }
  }

  lemma NothingInDots(f: seq<File>, g: seq<File>, p: nat, e: nat, d: nat, name: Name, leaf: Name)
    requires |f| == INUM && p < INUM && 0 < d < INUM && Created(f, g, p, e, d, name, TYPE_DIR)
    requires leaf != DOT && leaf != DOTDOT
    ensures LookupIno(g[d].data, leaf) == 0
  {
    hide EntrySet, FreeEntry;
    FirstEntry(g[d].data, leaf, 2);
  }

  // Adding one device does not bring the other into being.
  lemma NoOtherLeaf(f: seq<File>, f': seq<File>, cwd: nat, id: u32)
    requires |f| == INUM && f[ROOT_INO].typ == TYPE_DIR && DeviceAdded(f, f', DEV_SERIAL, cwd, id)
    requires Target(f, DEV_NULL, cwd) == 0
    ensures Target(f', DEV_NULL, cwd) == 0
  {
    hide Comps, LookupIno, Created, Resolve, Target;
    var g: seq<File>, i: nat :|
      OpenedPath(f, g, DEV_SERIAL, cwd, TYPE_DEV, i) && 0 < i < |g| && f' == g[i := g[i].(device := id)];
    DevPaths();
    var dev, leaf, other := DEV_NAME, SERIAL_NAME, NULL_NAME;
    OpenedKeeps(f, g, DEV_SERIAL, cwd, TYPE_DEV, i);
    NumberKeeps(g, i, id);
    if g != f {
      LeafOf(f, DEV_SERIAL, leaf, cwd);
      LeafOf(f, DEV_NULL, other, cwd);
      var p := ParentOf(f, DEV_SERIAL, cwd);
      assert LastName(DEV_SERIAL) == leaf;
      var e: nat :| Created(f, g, p, e, i, leaf, TYPE_DEV);
      CreatedKinds(f, g, p, e, i, leaf, TYPE_DEV);
      LookupAfterCreate(f, g, p, e, i, leaf, TYPE_DEV, dev);
      LookupAfterCreate(f, g, p, e, i, leaf, TYPE_DEV, other);
      LeafOf(g, DEV_NULL, other, cwd);
    }
  }

  // Two names of a directory that lead to the same inode are one name.
  lemma NamesApart(f: seq<File>, t: seq<Inode>, p: nat, a: seq<byte>, b: seq<byte>)
    requires System(f, t) && p < INUM && f[p].typ == TYPE_DIR && LookupIno(f[p].data, a) == LookupIno(f[p].data, b) != 0
    requires a != DOT && a != DOTDOT && b != DOT && b != DOTDOT
    ensures a == b
  {
    SystemRoot(f, t);
    hide System, LookupIno, EntIno, EntName, NodesOf;
    FoundEntry(f, t, p, a);
    FoundEntry(f, t, p, b);
    var c := f[p].data;
    var k, l := EntryFrom(c, a, 0), EntryFrom(c, b, 0);
    NamedAllocated(f, t, p, a);
    EnteredOnce(f, t, p, k, l);
    assert Names(c, k, a) && Names(c, l, b);
  }

  lemma EnteredOnce(f: seq<File>, t: seq<Inode>, p: nat, k: nat, l: nat)
    requires System(f, t) && p < INUM && f[p].typ == TYPE_DIR && 2 <= k < Count(f[p].data) && 2 <= l < Count(f[p].data)
    requires EntIno(f[p].data, k) == EntIno(f[p].data, l) != 0
    ensures k == l
  {
    hide Shapes, Targets, Homes, DotDots, Marks, NodesOf, EntIno;
    var ns := NodesOf(f);
    var home :| Tree(ns, home) && Marks(ns, t, home);
    NodeEntry(f, p, k);
    NodeEntry(f, p, l);
  }

  // The three stages of init_dev, and what they come to.
  lemma AllUp(f: seq<File>, g: seq<File>, h: seq<File>, k: seq<File>, cwd: nat, d: nat,
      t0: seq<Inode>, t: seq<Inode>, u: seq<Inode>)
    requires System(f, t0) && System(h, t) && System(k, u)
    requires OpenedPath(f, g, DEV_DIR, cwd, TYPE_DIR, d)
    requires DeviceAdded(g, h, DEV_SERIAL, cwd, SERIAL_DEV) && DeviceAdded(h, k, DEV_NULL, cwd, NULL_DEV)
    ensures DevicesUp(f, k)
  {
    hide Comps, OpenedPath, Target, DeviceAdded, System, LookupIno;
    DevPaths();
    SystemRoot(f, t0);
    var dev, leaf, other := DEV_NAME, SERIAL_NAME, NULL_NAME;
    OpenedKeeps(f, g, DEV_DIR, cwd, TYPE_DIR, d);
    AddedIsThere(g, h, DEV_SERIAL, cwd, SERIAL_DEV);
    AddedIsThere(h, k, DEV_NULL, cwd, NULL_DEV);
    KeptTwice(f, g, h);
    KeptTwice(f, h, k);
    if Target(f, DEV_SERIAL, cwd) == 0 { NewDirIsEmpty(f, g, cwd, d, DEV_SERIAL, leaf); }
    if Target(f, DEV_NULL, cwd) == 0 {
      NewDirIsEmpty(f, g, cwd, d, DEV_NULL, other);
      NoOtherLeaf(g, h, cwd, SERIAL_DEV);
    }
    LeafOf(h, DEV_SERIAL, leaf, cwd);
    LeafOf(k, DEV_SERIAL, leaf, cwd);
    LeafOf(k, DEV_NULL, other, cwd);
    var p := LookupIno(k[ROOT_INO].data, dev);
    if LookupIno(k[p].data, leaf) == LookupIno(k[p].data, other) { NamesApart(k, u, p, leaf, other); }
    NamedAllocated(h, t, LookupIno(h[ROOT_INO].data, dev), leaf);
    LeafOf(f, DEV_SERIAL, leaf, ROOT_INO);
    LeafOf(k, DEV_SERIAL, leaf, ROOT_INO);
    if Target(f, DEV_DIR, ROOT_INO) != 0 { NamedAllocated(f, t0, ROOT_INO, dev); }
    assert !DevTaken(f);
    assert Kept(f, k);
    forall c: nat ensures DeviceAt(f, k, DEV_SERIAL, c, SERIAL_DEV) && DeviceAt(f, k, DEV_NULL, c, NULL_DEV) {
      Absolute(f, DEV_SERIAL, c);
      Absolute(k, DEV_SERIAL, c);
      Absolute(f, DEV_NULL, c);
      Absolute(k, DEV_NULL, c);
      Absolute(f, DEV_SERIAL, cwd);
      Absolute(k, DEV_SERIAL, cwd);
      Absolute(f, DEV_NULL, cwd);
      Absolute(k, DEV_NULL, cwd);
    }
  }

  // ---- init_dev ----

  lemma OpenedAbsolute(f: seq<File>, f': seq<File>, path: seq<byte>, cwd: nat, typ: u32, ino: nat)
    requires |f| == INUM && path != [] && path[0] == SLASH && OpenedPath(f, f', path, cwd, typ, ino)
    ensures OpenedPath(f, f', path, ROOT_INO, typ, ino)
  {
    hide Comps, LookupIno, Created;
  }

  lemma AddedAbsolute(f: seq<File>, f': seq<File>, path: seq<byte>, cwd: nat, id: u32)
    requires path != [] && path[0] == SLASH && DeviceAdded(f, f', path, cwd, id)
    ensures DeviceAdded(f, f', path, ROOT_INO, id)
  {
    hide OpenedPath;
    var g: seq<File>, i: nat :|
      OpenedPath(f, g, path, cwd, TYPE_DEV, i) && 0 < i < |g| && f' == g[i := g[i].(device := id)];
    OpenedAbsolute(f, g, path, cwd, TYPE_DEV, i);
  }

  // iadddev finds no parent only if the device directory is none.
  lemma NoParent(g: seq<File>, path: seq<byte>, leaf: seq<byte>, cwd: nat)
    requires |g| == INUM && g[ROOT_INO].typ == TYPE_DIR && path != [] && path[0] == SLASH
    requires Comps(path) == [DEV_NAME, leaf] && OpenedPath(g, g, path, cwd, TYPE_DEV, 0)
    ensures !IsDirectory(g, Target(g, DEV_DIR, ROOT_INO))
  {
    hide Comps, LookupIno, Created;
    LeafOf(g, path, leaf, cwd);
    Absolute(g, DEV_DIR, cwd);
  }

  // What was there has not become a directory.
  lemma TakenBefore(f: seq<File>, g: seq<File>, d: nat)
    requires |f| == INUM && OpenedPath(f, g, DEV_DIR, ROOT_INO, TYPE_DIR, d) && d != 0
    requires !IsDirectory(g, Target(g, DEV_DIR, ROOT_INO))
    ensures DevTaken(f)
  {
    hide Comps, LookupIno, Created, Target;
    OpenedIsThere(f, g, DEV_DIR, ROOT_INO, TYPE_DIR, d);
    if g != f {
      var p, last := ParentOf(f, DEV_DIR, ROOT_INO), LastName(DEV_DIR);
      ParentIsDir(f, DEV_DIR, ROOT_INO);
      var e: nat :| Created(f, g, p, e, d, last, TYPE_DIR);
      CreatedKinds(f, g, p, e, d, last, TYPE_DIR);
    }
  }

  // A device was added, so the device directory is one.
  lemma ParentThere(g: seq<File>, h: seq<File>)
    requires |g| == INUM && g[ROOT_INO].typ == TYPE_DIR && DeviceAdded(g, h, DEV_SERIAL, ROOT_INO, SERIAL_DEV)
    ensures |h| == INUM && h[ROOT_INO].typ == TYPE_DIR && IsDirectory(h, Target(h, DEV_DIR, ROOT_INO))
  {
    hide Comps, LookupIno, Created, Target, Kept;
    DevPaths();
    LeafOf(g, DEV_SERIAL, SERIAL_NAME, ROOT_INO);
    AddedIsThere(g, h, DEV_SERIAL, ROOT_INO, SERIAL_DEV);
    DirKept(g, h, DEV_DIR, ROOT_INO);
    RootKept(g, h);
  }

  lemma DirKept(g: seq<File>, h: seq<File>, path: seq<byte>, cwd: nat)
    requires Kept(g, h) && IsDirectory(g, Target(g, path, cwd))
    ensures IsDirectory(h, Target(h, path, cwd)) && Target(h, path, cwd) == Target(g, path, cwd)
  {
    hide Target;
  }

  lemma RootKept(g: seq<File>, h: seq<File>)
    requires Kept(g, h) && g[ROOT_INO].typ == TYPE_DIR
    ensures |h| == INUM && h[ROOT_INO].typ == TYPE_DIR
  {
    hide Target;
  }

  // How far init_dev came: the directory is there in g, the first device in h.
  ghost predicate Stages(f: seq<File>, g: seq<File>, h: seq<File>) {
    && |f| == |g| == INUM
    && (g == f || exists d: nat :: OpenedPath(f, g, DEV_DIR, ROOT_INO, TYPE_DIR, d))
    && (h == g || DeviceAdded(g, h, DEV_SERIAL, ROOT_INO, SERIAL_DEV))
  }

  // init_dev stops the machine when something that is not a directory is called dev, or for want of space.
  method InitDev(ft: FileTable, cwd: nat, ghost cwds: multiset<nat>)
    returns (r: Outcome<()>, ghost g: seq<File>, ghost h: seq<File>)
    requires ft.Valid(cwds) && cwd in cwds && Ready(ft.fs, cwd)
    modifies ft.fs`own, ft.fs.inodes, ft.fs.disk.cache, ft.fs.disk.sectors
    ensures Stages(old(ft.fs.F()), g, h)
    ensures r.Abort? && !DevTaken(old(ft.fs.F())) ==>
      Exhausted(ft.fs, old(ft.fs.F())) || Exhausted(ft.fs, g) || Exhausted(ft.fs, h)
    ensures r.Done? ==> ft.Valid(cwds) && ft.fs.inodes[cwd].no == old(ft.fs.inodes[cwd].no)
    ensures r.Done? ==> DevicesUp(old(ft.fs.F()), ft.fs.F())
  {
    hide Exhausted, Inodes.Fs.Valid, Inodes.Fs.Raw, Inodes.Fs.V, Inodes.Fs.F, FilesOf, ViewOf, System, Accounted,
      Holds, Hold, Owned, SoundInodes, TableOk, Deleted, Writers, OpenedPath, Comps, SameRefs, RefsBy, TypesKept,
      DeviceAdded, DevTaken, DevicesUp, Kept, Target, LookupIno;
    ft.fs.Sound();
    ghost var f, t0 := ft.fs.F(), ft.fs.inodes[..];
    g, h := f, f;
    DevPaths();
    SystemRoot(f, t0);
    ghost var d, at := 0, ft.fs.inodes[cwd].no;
    r, d := MakeDevDir(ft, cwd, cwds);
    if r.Abort? { return; }
    ft.Stands(cwd, cwds);
    ft.fs.Sound();
    g, h := ft.fs.F(), ft.fs.F();
    OpenedAbsolute(f, g, DEV_DIR, at, TYPE_DIR, d);
    SystemRoot(g, ft.fs.inodes[..]);
    at := ft.fs.inodes[cwd].no;
    r := Iadddev(ft, DEV_SERIAL, SERIAL_DEV, cwd, cwds);
    if r.Abort? {
      if !Exhausted(ft.fs, g) {
        NoParent(g, DEV_SERIAL, SERIAL_NAME, at);
        TakenBefore(f, g, d);
      }
      return;
    }
    ft.Stands(cwd, cwds);
    ft.fs.Sound();
    h := ft.fs.F();
    AddedAbsolute(g, h, DEV_SERIAL, at, SERIAL_DEV);
    ghost var t := ft.fs.inodes[..];
    SystemRoot(h, t);
    ParentThere(g, h);
    at := ft.fs.inodes[cwd].no;
    r := Iadddev(ft, DEV_NULL, NULL_DEV, cwd, cwds);
    if r.Abort? {
      if !Exhausted(ft.fs, h) { NoParent(h, DEV_NULL, NULL_NAME, at); }
      return;
    }
    ft.Stands(cwd, cwds);
    ft.fs.Sound();
    AddedAbsolute(h, ft.fs.F(), DEV_NULL, at, NULL_DEV);
    AllUp(f, g, h, ft.fs.F(), ROOT_INO, d, t0, t, ft.fs.inodes[..]);
  }
}

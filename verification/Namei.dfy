// kernel/src/fs.c, lines 335-388 and 529-579: opening and removing by path name.
module Namei {
  import opened Options
  import opened Bytes
  import opened DiskCache
  import opened Layout
  import opened Ownership
  import opened Files
  import opened Dirents
  import opened Inodes
  import opened Directories
  import opened Paths
  import opened Namespace

  // Where the walk of a path starts.
  function StartOf(path: seq<byte>, cwd: nat): nat {
    if path != [] && path[0] == SLASH then ROOT_INO else cwd
  }

  // The directory that is to hold the last name of a path; 0 if there is none.
  function ParentOf(f: seq<File>, path: seq<byte>, cwd: nat): nat {
    var cs := Comps(path);
    if cs == [] then 0
    else var p := Resolve(f, StartOf(path, cwd), cs[..|cs| - 1]);
      if 0 < p < |f| && f[p].typ == TYPE_DIR then p else 0
  }

  function LastName(path: seq<byte>): seq<byte>
    requires Comps(path) != []
  {
    Comps(path)[|Comps(path)| - 1]
  }

  // A file system that calls on names may be made on, by a process whose working directory is slot cwd.
  ghost predicate Ready(fs: Fs, cwd: nat)
    reads fs, fs.disk, fs.disk.sectors, fs.disk.cache, fs.inodes
  {
    fs.Valid() && System(fs.F(), fs.inodes[..]) && fs.Live(cwd) && fs.F()[fs.inodes[cwd].no].typ == TYPE_DIR
  }

  ghost predicate OneLess(t: seq<Inode>, t': seq<Inode>, ip: nat) {
    && |t'| == |t| && ip < |t|
    && (forall j: nat | j < |t| && j != ip :: t'[j] == t[j])
    && t'[ip].ref == t[ip].ref - 1 && t'[ip].no == t[ip].no && t'[ip].del == t[ip].del
  }

  lemma StillOpen(t0: seq<Inode>, t: seq<Inode>, t': seq<Inode>, ip: nat, nx: nat)
    requires OneLess(t, t', ip) && RefsBy(t0, t, multiset{ip} + multiset{nx}) && nx < |t| && t[nx].ref >= 1
    ensures t'[nx].ref >= 1 && t'[nx].no == t[nx].no && t'[nx].del == t[nx].del
  {
    assert t[ip].ref == t0[ip].ref + (multiset{ip} + multiset{nx})[ip];
  }

  lemma RefsBoth(t: seq<Inode>, u: seq<Inode>, v: seq<Inode>, got: multiset<nat>, more: multiset<nat>)
    requires RefsBy(t, u, got) && RefsBy(u, v, more)
    ensures RefsBy(t, v, got + more)
  {
    forall l: nat | l < |t| ensures v[l].ref == t[l].ref + (got + more)[l] {
      assert u[l].ref == t[l].ref + got[l] && v[l].ref == u[l].ref + more[l];
    }
    forall l: nat | l < |t| && t[l].ref == 0 && v[l].ref >= 1 ensures !v[l].del {
      assert u[l].ref == t[l].ref + got[l] && v[l].ref == u[l].ref + more[l];
    }
    forall l: nat | l < |t| && t[l].ref >= 1 ensures v[l].no == t[l].no && v[l].del == t[l].del {
      assert u[l].ref == t[l].ref + got[l];
    }
  }

  lemma DupIsOpen(t: seq<Inode>, t': seq<Inode>, s: Store, ip: nat)
    requires ip < |t| && t[ip].ref >= 1 && t[ip].no < INUM && t' == t[ip := t[ip].(ref := t[ip].ref + 1)]
    ensures Opened(t, t', s, t[ip].no, ip)
  {}

  lemma LookedNone(f: seq<File>, f': seq<File>, p: nat, ino: nat, name: seq<byte>, off: nat)
    requires |f| == INUM && p < INUM && Looked(f, f', p, ino, name, TYPE_NONE, off)
    ensures f' == f && ino == LookupIno(f[p].data, name) != 0
  {}

  lemma ParentIsDir(f: seq<File>, path: seq<byte>, cwd: nat)
    requires ParentOf(f, path, cwd) != 0
    ensures ParentOf(f, path, cwd) < |f| && f[ParentOf(f, path, cwd)].typ == TYPE_DIR && Comps(path) != []
  {}

  // Closing a slot that is not marked for deletion only drops the reference.
  method ClosePlain(fs: Fs, ip: nat, ghost t0: seq<Inode>, ghost got: multiset<nat>)
    requires fs.Valid() && fs.Live(ip) && !fs.inodes[ip].del
    requires RefsBy(t0, fs.inodes[..], got) && ip in got
    modifies fs`own, fs.inodes, fs.disk.cache, fs.disk.sectors
    ensures fs.Valid() && fs.F() == old(fs.F())
    ensures RefsBy(t0, fs.inodes[..], got - multiset{ip})
    ensures OneLess(old(fs.inodes[..]), fs.inodes[..], ip)
  {
    hide Inodes.Fs.Valid, Exhausted, Inodes.Fs.Raw, Inodes.Fs.V, Inodes.Fs.F, RefsBy, Deleted;
    ghost var u := fs.inodes[..];
    fs.Mirror(ip);
    fs.Iclose(ip);
    RefsClosed(t0, u, fs.inodes[..], got, ip);
  }

  // One step down: from directory ip, which is closed, to the inode it calls name, which is opened.
  method Descend(fs: Fs, ip: nat, name: Name, ghost t0: seq<Inode>, ghost f: seq<File>)
    returns (r: Outcome<Option<nat>>)
    requires fs.Valid() && fs.Live(ip) && !fs.inodes[ip].del && fs.F() == f
    requires System(f, t0) && RefsBy(t0, fs.inodes[..], multiset{ip}) && f[fs.inodes[ip].no].typ == TYPE_DIR
    modifies fs`own, fs.inodes, fs.disk.cache, fs.disk.sectors
    ensures r.Abort? ==> Exhausted(fs, f)
    ensures r.Done? ==> fs.Valid() && fs.F() == f
    ensures r.Done? ==> (r.value.None? <==> LookupIno(f[old(fs.inodes[ip].no)].data, name) == 0)
    ensures r.Done? && r.value.None? ==> RefsBy(t0, fs.inodes[..], multiset{})
    ensures r.Done? && r.value.Some? ==> fs.Live(r.value.value) && !fs.inodes[r.value.value].del
    ensures r.Done? && r.value.Some? ==> RefsBy(t0, fs.inodes[..], multiset{r.value.value})
    ensures r.Done? && r.value.Some? ==> fs.inodes[r.value.value].no == LookupIno(f[old(fs.inodes[ip].no)].data, name)
  {
    hide Inodes.Fs.Valid, Exhausted, Inodes.Fs.Raw, Inodes.Fs.V, FilesOf, RefsBy, System, Looked, LookupIno, Followable,
      TableOk, Owned, SoundInodes, OneLess;
    fs.Mirror(ip);
    ghost var t1, p := fs.inodes[..], fs.inodes[ip].no;
    SystemRefs(f, t0, t1, multiset{ip});
    SystemWhole(f, t1, p);
    SystemRoot(f, t1);
    var next, off := Ilookup(fs, ip, name, TYPE_NONE);
    if next.Abort? { return Abort; }
    ghost var t2 := fs.inodes[..];
    fs.Mirror(ip);
    if next.value.None? {
      RefsBoth(t0, t1, t2, multiset{ip}, multiset{});
      assert multiset{ip} + multiset{} == multiset{ip};
      RefsLive(t1, t2, multiset{}, ip);
      ClosePlain(fs, ip, t0, multiset{ip});
      assert multiset{ip} - multiset{ip} == multiset{};
      return Done(None);
    }
    var nx := next.value.value;
    LookedNone(f, fs.F(), p, fs.inodes[nx].no, name, off);
    RefsBoth(t0, t1, t2, multiset{ip}, multiset{nx});
    RefsLive(t1, t2, multiset{nx}, ip);
    SystemRefs(f, t1, t2, multiset{nx});
    NamedNotUnlinked(f, t2, p, name, nx);
    ClosePlain(fs, ip, t0, multiset{ip} + multiset{nx});
    assert multiset{ip} + multiset{nx} - multiset{ip} == multiset{nx};
    StillOpen(t0, t2, fs.inodes[..], ip, nx);
    return Done(Some(nx));
  }

  method IopenParent(fs: Fs, path: seq<byte>, cwd: nat) returns (r: Outcome<Option<nat>>, name: Name)
    requires Ready(fs, cwd) && 0 !in path
    modifies fs`own, fs.inodes, fs.disk.cache, fs.disk.sectors
    ensures r.Done? ==> fs.Valid() && fs.F() == old(fs.F())
    ensures r.Abort? ==> Exhausted(fs, old(fs.F()))
    ensures r.Done? ==> (r.value.None? <==> ParentOf(old(fs.F()), path, old(fs.inodes[cwd].no)) == 0)
    ensures r.Done? && r.value.None? ==> RefsBy(old(fs.inodes[..]), fs.inodes[..], multiset{})
    ensures r.Done? && r.value.Some? ==> fs.Live(r.value.value) && Comps(path) != [] && name == LastName(path)
    ensures r.Done? && r.value.Some? ==>
      fs.inodes[r.value.value].no == ParentOf(old(fs.F()), path, old(fs.inodes[cwd].no))
    ensures r.Done? && r.value.Some? ==> RefsBy(old(fs.inodes[..]), fs.inodes[..], multiset{r.value.value})
  {
    hide Inodes.Fs.Valid, Exhausted, Inodes.Fs.Raw, Inodes.Fs.V, FilesOf, RefsBy, System, Opened, Looked, LookupIno,
      Comps, Followable, Resolve, TableOk, Owned, SoundInodes, SameGoal, OneLess;
    fs.Mirror(cwd);
    ghost var t0, f, start := fs.inodes[..], fs.F(), StartOf(path, fs.inodes[cwd].no);
    RefsNone(t0);
    SystemRoot(f, t0);
    SizeIsData(fs, cwd);
    name := [];
    var ip: nat;
    if path != [] && path[0] == SLASH {
      var g := fs.Iget(fs.sb.root);
      if g.Abort? {
        NoneFree(fs, f);
        return Abort, name;
      }
      ip := g.value;
      RefsOpened(t0, t0, fs.inodes[..], multiset{}, fs.V(), ROOT_INO, ip);
    } else {
      ip := cwd;
      fs.Idup(cwd);
      DupIsOpen(t0, fs.inodes[..], fs.V(), cwd);
      RefsOpened(t0, t0, fs.inodes[..], multiset{}, fs.V(), t0[cwd].no, ip);
    }
    assert multiset{} + multiset{ip} == multiset{ip};
    SystemRefs(f, t0, fs.inodes[..], multiset{ip});
    DirNotUnlinked(f, fs.inodes[..], ip);
    if Comps(path) != [] { GoalStart(f, start, Comps(path)); }
    var rest := path;
    while true
      invariant fs.Valid() && fs.inodes.Length == INODE_NUM && fs.disk.sectors.Length == SECT_NUM && SoundInodes(fs.V())
        && fs.F() == f
      invariant RefsBy(t0, fs.inodes[..], multiset{ip}) && fs.Live(ip) && !fs.inodes[ip].del && 0 !in rest
      invariant fs.inodes[ip].no < INUM
      invariant Comps(rest) == [] ==> Comps(path) == []
      invariant Comps(rest) != [] ==> SameGoal(f, start, Comps(path), fs.inodes[ip].no, Comps(rest))
      decreases |Comps(rest)|
    {
      var found, rest', elem := Skipelem(rest);
      if !found { break; }
      name := elem;
      ghost var cs := Comps(rest);
      assert cs == [name] + Comps(rest');
      GoalStep(f, start, Comps(path), fs.inodes[ip].no, cs);
      SizeIsData(fs, ip);
      if fs.inodes[ip].dinode.typ != TYPE_DIR {
        ClosePlain(fs, ip, t0, multiset{ip});
        assert multiset{ip} - multiset{ip} == multiset{};
        return Done(None), name;
      }
      if rest' == [] {
        return Done(Some(ip)), name;
      }
      var next := Descend(fs, ip, name, t0, f);
      if next.Abort? { return Abort, name; }
      if next.value.None? { return Done(None), name; }
      ip := next.value.value;
      fs.Mirror(ip);
      rest := rest';
    }
    ClosePlain(fs, ip, t0, multiset{ip});
    assert multiset{ip} - multiset{ip} == multiset{};
    return Done(None), name;
  }

  // What is left to walk leads where the whole path leads.
  ghost predicate SameGoal(f: seq<File>, start: nat, all: seq<seq<byte>>, cur: nat, left: seq<seq<byte>>)
    requires left != []
  {
    && all != [] && all[|all| - 1] == left[|left| - 1] && cur != 0
    && Resolve(f, start, all[..|all| - 1]) == Resolve(f, cur, left[..|left| - 1])
  }

  lemma GoalStart(f: seq<File>, start: nat, cs: seq<seq<byte>>)
    requires cs != [] && start != 0
    ensures SameGoal(f, start, cs, start, cs)
  {}

  lemma ResolveZero(f: seq<File>, cs: seq<seq<byte>>)
    ensures Resolve(f, 0, cs) == 0
  {}

  lemma GoalStep(f: seq<File>, start: nat, all: seq<seq<byte>>, cur: nat, left: seq<seq<byte>>)
    requires left != [] && SameGoal(f, start, all, cur, left)
    ensures |left| == 1 ==> Resolve(f, start, all[..|all| - 1]) == cur && all[|all| - 1] == left[0]
    ensures |left| > 1 ==>
      var next := if cur >= |f| || f[cur].typ != TYPE_DIR then 0 else LookupIno(f[cur].data, left[0]);
      if next == 0 then Resolve(f, start, all[..|all| - 1]) == 0 else SameGoal(f, start, all, next, left[1..])
  {
    if |left| > 1 {
      var init := left[..|left| - 1];
      ResolveZero(f, init[1..]);
      assert init[0] == left[0] && init[1..] == left[1..][..|left[1..]| - 1];
    } else {
      assert left[..|left| - 1] == [];
    }
  }

  // ---- open ----

  lemma LiveAllocated(fs: Fs)
    requires fs.Valid()
    ensures forall l: nat | l < |fs.inodes[..]| && fs.inodes[..][l].ref >= 1 ::
      0 < fs.inodes[..][l].no < INUM && fs.F()[fs.inodes[..][l].no].typ != TYPE_NONE
  {}

  lemma FewerRefs(f: seq<File>, t: seq<Inode>, t': seq<Inode>, ip: nat)
    requires System(f, t) && OneLess(t, t', ip) && !t[ip].del
    ensures System(f, t')
  {
    hide Tree, NodesOf, WholeEntries;
    var ns := NodesOf(f);
    var home :| Tree(ns, home) && Marks(ns, t, home);
    forall l: nat | Unlinked(t', l) ensures t'[l].no !in home && t'[l].no != ROOT_INO && !IsDir(ns, t'[l].no) {
      assert Unlinked(t, l);
    }
    forall i: nat | i < INUM && !ns[i].Free? && i != ROOT_INO && i !in home ensures Held(t', i) {
      var l: nat :| Unlinked(t, l) && t[l].no == i;
      assert Unlinked(t', l);
    }
    assert Marks(ns, t', home);
  }

  lemma LookedSystem(f: seq<File>, f': seq<File>, t: seq<Inode>, t': seq<Inode>, p: nat, ino: nat, name: Name, typ: u32,
                     off: nat, j: nat, pip: nat)
    requires System(f, t) && RefsBy(t, t', multiset{j}) && p < INUM && f[p].typ == TYPE_DIR
    requires Looked(f, f', p, ino, name, typ, off) && j < |t'| && t'[j].ref >= 1 && t'[j].no == ino
    requires pip < |t| && t[pip].ref >= 1 && t[pip].no == p
    requires forall l: nat | l < |t| && t[l].ref >= 1 :: 0 < t[l].no < INUM && f[t[l].no].typ != TYPE_NONE
    ensures System(f', t') && !t'[j].del && !t'[pip].del
    ensures if LookupIno(f[p].data, name) != 0 then f' == f && ino == LookupIno(f[p].data, name)
      else 0 < ino < INUM && typ != TYPE_NONE && exists e: nat :: Created(f, f', p, e, ino, name, typ)
  {
    SystemRoot(f, t);
    hide System, LookupIno, Created;
    assert t'[pip].ref == t[pip].ref + multiset{j}[pip];
    DirNotUnlinked(f, t, pip);
    if LookupIno(f[p].data, name) != 0 {
      SystemRefs(f, t, t', multiset{j});
      NamedNotUnlinked(f, t', p, name, j);
    } else {
      var e: nat :| Created(f, f', p, e, ino, name, typ);
      CreateSystem(f, f', t, t', p, e, ino, name, typ, j);
      CreatedWasFree(f, f', p, e, ino, name, typ);
      assert t'[j].ref == t[j].ref + multiset{j}[j];
    }
  }

  lemma CreatedWasFree(f: seq<File>, f': seq<File>, p: nat, e: nat, ino: nat, name: seq<byte>, typ: u32)
    requires |f| == INUM && p < INUM && 0 < ino < INUM && Created(f, f', p, e, ino, name, typ)
    ensures f[ino].typ == TYPE_NONE
  {}

  // What iopen(path, typ) did, seen from outside: ino is the inode it opened, 0 if it returned NULL.
  ghost predicate OpenedPath(f: seq<File>, f': seq<File>, path: seq<byte>, cwd: nat, typ: u32, ino: nat)
    requires |f| == INUM
  {
    var p := ParentOf(f, path, cwd);
    if Comps(path) == [] then f' == f && ino == if path != [] then ROOT_INO else 0
    else if p == 0 then f' == f && ino == 0
    else if LookupIno(f[p].data, LastName(path)) != 0 then f' == f && ino == LookupIno(f[p].data, LastName(path))
    else if typ == TYPE_NONE then f' == f && ino == 0
    else 0 < ino < INUM && exists e: nat :: Created(f, f', p, e, ino, LastName(path), typ)
  }

  method Iopen(fs: Fs, path: seq<byte>, typ: u32, cwd: nat) returns (r: Outcome<Option<nat>>)
    requires Ready(fs, cwd) && 0 !in path
    modifies fs`own, fs.inodes, fs.disk.cache, fs.disk.sectors
    ensures r.Abort? ==> Exhausted(fs, old(fs.F()))
    ensures r.Done? ==> fs.Valid() && System(fs.F(), fs.inodes[..])
    ensures r.Done? && r.value.None? ==> RefsBy(old(fs.inodes[..]), fs.inodes[..], multiset{})
    ensures r.Done? && r.value.None? ==> OpenedPath(old(fs.F()), fs.F(), path, old(fs.inodes[cwd].no), typ, 0)
    ensures r.Done? && r.value.Some? ==> fs.Live(r.value.value) && !fs.inodes[r.value.value].del
    ensures r.Done? && r.value.Some? ==> RefsBy(old(fs.inodes[..]), fs.inodes[..], multiset{r.value.value})
    ensures r.Done? && r.value.Some? ==>
      OpenedPath(old(fs.F()), fs.F(), path, old(fs.inodes[cwd].no), typ, fs.inodes[r.value.value].no)
  {
    hide Inodes.Fs.Valid, Exhausted, Inodes.Fs.Raw, Inodes.Fs.V, FilesOf, RefsBy, System, Opened, Looked, LookupIno,
      Comps, Followable, TableOk, Owned,
      SoundInodes, OneLess, Created, ParentOf;
    fs.Mirror(cwd);
    ghost var t0, f, at := fs.inodes[..], fs.F(), fs.inodes[cwd].no;
    RefsNone(t0);
    SystemRoot(f, t0);
    var found, rest, elem := Skipelem(path);
    if !found {
      if path != [] && path[0] == SLASH {
        var g := fs.Iget(fs.sb.root);
        if g.Abort? {
          NoneFree(fs, f);
          return Abort;
        }
        RefsOpened(t0, t0, fs.inodes[..], multiset{}, fs.V(), ROOT_INO, g.value);
        assert multiset{} + multiset{g.value} == multiset{g.value};
        SystemRefs(f, t0, fs.inodes[..], multiset{g.value});
        DirNotUnlinked(f, fs.inodes[..], g.value);
        return Done(Some(g.value));
      }
      if path != [] { CompsNone(path); }
      return Done(None);
    }
    var parent, name := IopenParent(fs, path, cwd);
    if parent.Abort? { return Abort; }
    if parent.value.None? {
      SystemRefs(f, t0, fs.inodes[..], multiset{});
      return Done(None);
    }
    ParentIsDir(f, path, at);
    r := OpenIn(fs, parent.value.value, name, typ, t0, f);
  }

  // The last step of iopen: the name is looked up, or created, and the parent closed.
  method OpenIn(fs: Fs, pip: nat, name: Name, typ: u32, ghost t0: seq<Inode>, ghost f: seq<File>)
    returns (r: Outcome<Option<nat>>)
    requires fs.Valid() && fs.Live(pip) && fs.F() == f
    requires System(f, t0) && RefsBy(t0, fs.inodes[..], multiset{pip}) && f[fs.inodes[pip].no].typ == TYPE_DIR
    modifies fs`own, fs.inodes, fs.disk.cache, fs.disk.sectors
    ensures r.Abort? ==> Exhausted(fs, f)
    ensures r.Done? ==> fs.Valid() && System(fs.F(), fs.inodes[..])
    ensures r.Done? && r.value.None? ==> fs.F() == f && RefsBy(t0, fs.inodes[..], multiset{})
    ensures r.Done? && r.value.None? ==> typ == TYPE_NONE && LookupIno(f[old(fs.inodes[pip].no)].data, name) == 0
    ensures r.Done? && r.value.Some? ==> fs.Live(r.value.value) && !fs.inodes[r.value.value].del
    ensures r.Done? && r.value.Some? ==> RefsBy(t0, fs.inodes[..], multiset{r.value.value})
    ensures r.Done? && r.value.Some? ==> var p, ino := old(fs.inodes[pip].no), fs.inodes[r.value.value].no;
      if LookupIno(f[p].data, name) != 0 then fs.F() == f && ino == LookupIno(f[p].data, name)
      else 0 < ino < INUM && typ != TYPE_NONE && exists e: nat :: Created(f, fs.F(), p, e, ino, name, typ)
  {
    hide Inodes.Fs.Valid, Exhausted, Inodes.Fs.Raw, Inodes.Fs.V, FilesOf, RefsBy, System, LookupIno, Followable,
      TableOk, Owned, SoundInodes, OneLess, Created;
    fs.Mirror(pip);
    ghost var t1, p := fs.inodes[..], fs.inodes[pip].no;
    SystemRefs(f, t0, t1, multiset{pip});
    SystemWhole(f, t1, p);
    SystemRoot(f, t1);
    LiveAllocated(fs);
    var l, off := Ilookup(fs, pip, name, typ);
    if l.Abort? { return Abort; }
    ghost var t2 := fs.inodes[..];
    fs.Mirror(pip);
    if l.value.None? {
      RefsBoth(t0, t1, t2, multiset{pip}, multiset{});
      assert multiset{pip} + multiset{} == multiset{pip};
      SystemRefs(f, t1, t2, multiset{});
      DirNotUnlinked(f, t2, pip);
      ClosePlain(fs, pip, t0, multiset{pip});
      assert multiset{pip} - multiset{pip} == multiset{};
      SystemRefs(f, t0, fs.inodes[..], multiset{});
      return Done(None);
    }
    var j := l.value.value;
    ghost var ino := fs.inodes[j].no;
    RefsBoth(t0, t1, t2, multiset{pip}, multiset{j});
    fs.Mirror(j);
    LookedSystem(f, fs.F(), t1, t2, p, ino, name, typ, off, j, pip);
    ClosePlain(fs, pip, t0, multiset{pip} + multiset{j});
    assert multiset{pip} + multiset{j} - multiset{pip} == multiset{j};
    StillOpen(t0, t2, fs.inodes[..], pip, j);
    fs.Mirror(j);
    FewerRefs(fs.F(), t2, fs.inodes[..], pip);
    return Done(Some(j));
  }

  // The inode a path names, walking from the root or from directory cwd; 0 if there is none.
  function Target(f: seq<File>, path: seq<byte>, cwd: nat): nat {
    if Comps(path) != [] then Resolve(f, StartOf(path, cwd), Comps(path)) else if path == [] then 0 else ROOT_INO
  }

  // Without creation, opening a path is walking its names one by one.
  lemma OpenIsResolve(f: seq<File>, f': seq<File>, path: seq<byte>, cwd: nat, ino: nat)
    requires |f| == INUM && 0 < cwd < INUM && OpenedPath(f, f', path, cwd, TYPE_NONE, ino)
    ensures f' == f && ino == Target(f, path, cwd)
  {
    var cs := Comps(path);
    if cs != [] {
      var init, last := cs[..|cs| - 1], cs[|cs| - 1];
      assert cs == init + [last];
      ResolveLast(f, StartOf(path, cwd), init, last);
      var p := Resolve(f, StartOf(path, cwd), init);
      var one := [last];
      assert one[1..] == [];
      assert Resolve(f, p, [last]) == if p == 0 || p >= |f| || f[p].typ != TYPE_DIR then 0
        else LookupIno(f[p].data, last);
    }
  }

  // ---- remove ----

  method Idirempty(fs: Fs, ip: nat) returns (r: Outcome<bool>)
    requires fs.Valid() && fs.Live(ip) && Followable(fs.F(), fs.inodes[ip].no)
    modifies fs`own, fs.inodes, fs.disk.cache, fs.disk.sectors
    ensures r.Done? ==> fs.Valid() && fs.F() == old(fs.F()) && SameRefs(old(fs.inodes[..]), fs.inodes[..])
    ensures r.Abort? ==> Exhausted(fs, old(fs.F()))
    ensures r.Done? ==> r.value == NoEntries(old(fs.F())[fs.inodes[ip].no].data)
  {
    hide Inodes.Fs.Valid, Exhausted, Inodes.Fs.Raw, Inodes.Fs.V, FilesOf, SameRefs, TableOk, Owned, SoundInodes,
      Followable, EntIno, EntName, Window, Full;
    fs.Mirror(ip);
    SameRefsReflexive(fs.inodes[..]);
    ghost var t0, f, ino := fs.inodes[..], fs.F(), fs.inodes[ip].no;
    ghost var c := f[ino].data;
    FollowableShape(f, ino);
    SizeIsData(fs, ip);
    var i := 2 * DIRENT_SIZE;
    ghost var k := 2;
    while i < fs.Size(ip)
      invariant fs.Valid() && fs.disk.sectors.Length == SECT_NUM && SoundInodes(fs.V()) && fs.F() == f
      invariant SameRefs(t0, fs.inodes[..]) && fs.Live(ip) && fs.inodes[ip].no == ino && fs.Size(ip) == |c| <= MAX_FILE
      invariant i == DIRENT_SIZE * k
      invariant forall l: nat | 2 <= l < k && l < Count(c) :: EntIno(c, l) == 0
      decreases |c| - i
    {
      ghost var u := fs.inodes[..];
      var got := fs.Iread(ip, i, DIRENT_SIZE);
      if got.Abort? {
        LiveStays(u, fs.inodes[..], ip);
        WindowEntry(c, k);
        ExhaustedBy(fs, f, ino);
        return Abort;
      }
      SameRefsTransitive(t0, u, fs.inodes[..]);
      LiveStays(u, fs.inodes[..], ip);
      fs.Mirror(ip);
      SizeIsData(fs, ip);
      WindowEntry(c, k);
      if Dec32(got.value[..4]) != 0 {
        return Done(false);
      }
      i := i + DIRENT_SIZE;
      k := k + 1;
    }
    return Done(true);
  }

  // iremove(path) will return -1: no such file, a dot name, or a directory with entries.
  ghost predicate Refuses(f: seq<File>, path: seq<byte>, cwd: nat) {
    var p := ParentOf(f, path, cwd);
    p == 0 || LastName(path) == DOT || LastName(path) == DOTDOT
    || var i := LookupIno(f[p].data, LastName(path));
       i == 0 || (i < |f| && f[i].typ == TYPE_DIR && !NoEntries(f[i].data))
  }

  // The slot in which inode i was open, -1 if it was not open.
  ghost predicate HeldIn(t: seq<Inode>, i: nat, j: int) {
    if j < 0 then forall l: nat | l < |t| && t[l].ref >= 1 :: t[l].no != i
    else j < |t| && t[j].ref >= 1 && t[j].no == i
  }

  method Iremove(fs: Fs, path: seq<byte>, cwd: nat) returns (r: Outcome<int>, ghost j: int)
    requires Ready(fs, cwd) && 0 !in path
    modifies fs`own, fs.inodes, fs.disk.cache, fs.disk.sectors
    ensures r.Done? ==> fs.Valid()
    ensures r.Abort? ==> Exhausted(fs, old(fs.F()))
    ensures r.Done? ==> r.value == if Refuses(old(fs.F()), path, old(fs.inodes[cwd].no)) then -1 else 0
    ensures r == Done(-1) ==> fs.F() == old(fs.F()) && RefsBy(old(fs.inodes[..]), fs.inodes[..], multiset{})
    ensures r == Done(-1) ==> System(fs.F(), fs.inodes[..])
    ensures r == Done(0) ==>
      Unlinks(old(fs.F()), fs.F(), old(fs.inodes[..]), fs.inodes[..], path, old(fs.inodes[cwd].no), j)
  {
    hide Inodes.Fs.Valid, Exhausted, Inodes.Fs.Raw, Inodes.Fs.V, FilesOf, RefsBy, System, Looked, LookupIno, Comps,
      Followable, TableOk, Owned,
      SoundInodes, OneLess, ParentOf, NoEntries, Unlinks, SameRefs, EntryFrom;
    fs.Mirror(cwd);
    ghost var t0, f, at := fs.inodes[..], fs.F(), fs.inodes[cwd].no;
    SystemRoot(f, t0);
    j := -1;
    var parent, name := IopenParent(fs, path, cwd);
    if parent.Abort? { return Abort, j; }
    if parent.value.None? {
      SystemRefs(f, t0, fs.inodes[..], multiset{});
      return Done(-1), j;
    }
    var pip := parent.value.value;
    ParentIsDir(f, path, at);
    fs.Mirror(pip);
    ghost var t1, p := fs.inodes[..], fs.inodes[pip].no;
    SystemRefs(f, t0, t1, multiset{pip});
    DirNotUnlinked(f, t1, pip);
    if name == DOT || name == DOTDOT {
      CloseOne(fs, pip, t0, f);
      return Done(-1), j;
    }
    SystemWhole(f, t1, p);
    var l, off := Ilookup(fs, pip, name, TYPE_NONE);
    if l.Abort? { return Abort, j; }
    fs.Mirror(pip);
    if l.value.None? {
      RefsBoth(t0, t1, fs.inodes[..], multiset{pip}, multiset{});
      assert multiset{pip} + multiset{} == multiset{pip};
      RefsLive(t1, fs.inodes[..], multiset{}, pip);
      CloseOne(fs, pip, t0, f);
      return Done(-1), j;
    }
    var ip := l.value.value;
    LookedNone(f, fs.F(), p, fs.inodes[ip].no, name, off);
    LookedOffset(f, fs.F(), p, fs.inodes[ip].no, name, off);
    ghost var t2 := fs.inodes[..];
    RefsBoth(t0, t1, t2, multiset{pip}, multiset{ip});
    RefsLive(t1, t2, multiset{ip}, pip);
    SystemRefs(f, t1, t2, multiset{ip});
    NamedNotUnlinked(f, t2, p, name, ip);
    fs.Mirror(ip);
    ghost var i := fs.inodes[ip].no;
    SizeIsData(fs, ip);
    if fs.inodes[ip].dinode.typ == TYPE_DIR {
      SystemWhole(f, t2, i);
      var empty := Idirempty(fs, ip);
      if empty.Abort? { return Abort, j; }
      LiveStays(t2, fs.inodes[..], ip);
      LiveStays(t2, fs.inodes[..], pip);
      RefsKept(t0, t2, fs.inodes[..], multiset{pip} + multiset{ip});
      if !empty.value {
        CloseTwo(fs, pip, ip, t0, f);
        return Done(-1), j;
      }
    }
    FoundEntry(f, t0, p, name);
    var w;
    w, j := Unlink(fs, pip, ip, off, t0, f, EntryFrom(f[p].data, name, 0));
    if w.Abort? { return Abort, j; }
    fs.Sound();
    UnlinksMeans(f, fs.F(), t0, fs.inodes[..], path, at, j, p, i);
    assert Unlinks(f, fs.F(), t0, fs.inodes[..], path, at, j);
    return Done(0), j;
  }

  // The entry iremove clears comes after the dots.
  lemma FoundEntry(f: seq<File>, t: seq<Inode>, p: nat, name: seq<byte>)
    requires System(f, t) && p < INUM && f[p].typ == TYPE_DIR && LookupIno(f[p].data, name) != 0 && name != DOT
      && name != DOTDOT
    ensures var c, e := f[p].data, EntryFrom(f[p].data, name, 0);
      && |c| % DIRENT_SIZE == 0 && 2 <= e < Count(c) && EntIno(c, e) == LookupIno(c, name)
    ensures NoEntries(f[p].data) ==> false
  {
    var ns := NodesOf(f);
    var home :| Tree(ns, home) && Marks(ns, t, home);
    var e := EntryFrom(f[p].data, name, 0);
    hide Targets, Entered, Homes, DotDots, Marks;
    assert IsDir(ns, p);
    assert NameOf(ns, p, 0) == EntName(f[p].data, 0) && NameOf(ns, p, 1) == EntName(f[p].data, 1);
  }

  lemma UnlinksMeans(f: seq<File>, f': seq<File>, t: seq<Inode>, t': seq<Inode>, path: seq<byte>, cwd: nat, j: int,
      p: nat, i: nat)
    requires |f| == INUM && |f'| == INUM && p == ParentOf(f, path, cwd) != 0
      && i == LookupIno(f[p].data, LastName(path))
    requires 0 < i < INUM && p < INUM && HeldIn(t, i, j) && MarkedBy(t, t', j)
    requires Removed(f, f', p, EntryFrom(f[p].data, LastName(path), 0), i, j < 0)
    ensures Unlinks(f, f', t, t', path, cwd, j)
  {}

  lemma LookedOffset(f: seq<File>, f': seq<File>, p: nat, ino: nat, name: seq<byte>, off: nat)
    requires |f| == INUM && p < INUM && Looked(f, f', p, ino, name, TYPE_NONE, off)
    ensures off == DIRENT_SIZE * EntryFrom(f[p].data, name, 0)
  {}

  // What a successful iremove(path) did.
  ghost predicate Unlinks(f: seq<File>, f': seq<File>, t: seq<Inode>, t': seq<Inode>, path: seq<byte>, cwd: nat, j: int)
  {
    var p := ParentOf(f, path, cwd);
    && |f| == INUM && p != 0 && |f'| == INUM
    && var i, e := LookupIno(f[p].data, LastName(path)), EntryFrom(f[p].data, LastName(path), 0);
    && 0 < i < INUM && HeldIn(t, i, j) && Removed(f, f', p, e, i, j < 0) && MarkedBy(t, t', j)
  }

  method CloseOne(fs: Fs, pip: nat, ghost t0: seq<Inode>, ghost f: seq<File>)
    requires fs.Valid() && fs.F() == f && System(f, t0)
    requires RefsBy(t0, fs.inodes[..], multiset{pip}) && fs.Live(pip) && !fs.inodes[pip].del
    modifies fs`own, fs.inodes, fs.disk.cache, fs.disk.sectors
    ensures fs.Valid() && fs.F() == f && RefsBy(t0, fs.inodes[..], multiset{}) && System(f, fs.inodes[..])
  {
    hide Inodes.Fs.Valid, Exhausted, Inodes.Fs.Raw, Inodes.Fs.V, FilesOf, RefsBy, System, OneLess;
    fs.Mirror(pip);
    ClosePlain(fs, pip, t0, multiset{pip});
    assert multiset{pip} - multiset{pip} == multiset{};
    SystemRefs(f, t0, fs.inodes[..], multiset{});
  }

  method CloseTwo(fs: Fs, pip: nat, ip: nat, ghost t0: seq<Inode>, ghost f: seq<File>)
    requires fs.Valid() && fs.F() == f && System(f, t0)
    requires RefsBy(t0, fs.inodes[..], multiset{pip} + multiset{ip})
    requires fs.Live(pip) && !fs.inodes[pip].del && fs.Live(ip) && !fs.inodes[ip].del
    modifies fs`own, fs.inodes, fs.disk.cache, fs.disk.sectors
    ensures fs.Valid() && fs.F() == f && RefsBy(t0, fs.inodes[..], multiset{}) && System(f, fs.inodes[..])
  {
    hide Inodes.Fs.Valid, Exhausted, Inodes.Fs.Raw, Inodes.Fs.V, FilesOf, RefsBy, System, OneLess;
    fs.Mirror(pip);
    ghost var t := fs.inodes[..];
    ClosePlain(fs, pip, t0, multiset{pip} + multiset{ip});
    assert multiset{pip} + multiset{ip} - multiset{pip} == multiset{ip};
    StillOpen(t0, t, fs.inodes[..], pip, ip);
    CloseOne(fs, ip, t0, f);
  }

  // The end of iremove: clear the entry, mark the inode, close both.
  method Unlink(fs: Fs, pip: nat, ip: nat, off: nat, ghost t0: seq<Inode>, ghost f: seq<File>, ghost e: nat)
    returns (r: Outcome<()>, ghost j: int)
    requires fs.Valid() && fs.F() == f && RefsBy(t0, fs.inodes[..], multiset{pip} + multiset{ip})
    requires fs.Live(pip) && !fs.inodes[pip].del && fs.Live(ip) && !fs.inodes[ip].del
      && fs.inodes[pip].no != fs.inodes[ip].no
    requires var c := f[fs.inodes[pip].no].data;
      |c| % DIRENT_SIZE == 0 && e < Count(c) && off == DIRENT_SIZE * e
    modifies fs`own, fs.inodes, fs.disk.cache, fs.disk.sectors
    ensures r.Abort? ==> Exhausted(fs, f)
    ensures r.Done? ==> fs.Valid()
    ensures r.Done? ==> var p, i := old(fs.inodes[pip].no), old(fs.inodes[ip].no);
      && 0 < i < INUM && p < INUM && HeldIn(t0, i, j) && MarkedBy(t0, fs.inodes[..], j)
      && Removed(f, fs.F(), p, e, i, j < 0)
  {
    hide Inodes.Fs.Valid, Exhausted, Inodes.Fs.Raw, Inodes.Fs.V, FilesOf, RefsBy, SameRefs, Overlay, EntrySet, Deleted,
      FileWritten, Full, Removed, MarkedBy, HeldIn;
    fs.Mirror(pip);
    fs.Mirror(ip);
    SlotUnique(fs, ip);
    ghost var t, p, i := fs.inodes[..], fs.inodes[pip].no, fs.inodes[ip].no;
    j := -1;
    SizeIsData(fs, pip);
    var dirent := Zeros(DIRENT_SIZE);
    var w := fs.Iwrite(pip, off, dirent);
    if w.Abort? {
      ExhaustedBy(fs, f, p);
      return Abort, j;
    }
    LiveStays(t, fs.inodes[..], pip);
    LiveStays(t, fs.inodes[..], ip);
    ghost var t1 := fs.inodes[..];
    MarkInode(fs, ip);
    ghost var t2 := fs.inodes[..];
    fs.Iclose(pip);
    ghost var t3 := fs.inodes[..];
    fs.Iclose(ip);
    TablesAfterUnlink(t0, t, t1, t2, t3, fs.inodes[..], pip, ip, i);
    ClearedEntry(f, p, e, i, t3[ip].ref == 1);
    j := if t3[ip].ref == 1 then -1 else ip;
    return Done(()), j;
  }

  method MarkInode(fs: Fs, ip: nat)
    requires fs.Valid() && fs.Live(ip)
    modifies fs.inodes
    ensures fs.Valid() && fs.F() == old(fs.F())
    ensures fs.inodes[..] == old(fs.inodes[..])[ip := old(fs.inodes[ip]).(del := true)]
  {
    hide Owned, SoundInodes, ViewOf;
    fs.inodes[ip] := fs.inodes[ip].(del := true);
  }

  lemma SlotUnique(fs: Fs, ip: nat)
    requires fs.Valid() && fs.Live(ip)
    ensures forall l: nat | l < |fs.inodes[..]| && fs.inodes[..][l].ref >= 1
      && fs.inodes[..][l].no == fs.inodes[ip].no :: l == ip
  {}

  lemma TablesAfterUnlink(t0: seq<Inode>, t: seq<Inode>, t1: seq<Inode>, t2: seq<Inode>, t3: seq<Inode>, v: seq<Inode>,
                          pip: nat, ip: nat, i: nat)
    requires RefsBy(t0, t, multiset{pip} + multiset{ip}) && SameRefs(t, t1) && pip != ip && ip < |t| && pip < |t|
    requires t2 == t1[ip := t1[ip].(del := true)] && OneLess(t2, t3, pip) && OneLess(t3, v, ip)
    requires t[ip].no == i && forall l: nat | l < |t| && t[l].ref >= 1 && t[l].no == i :: l == ip
    ensures var j: int := if t3[ip].ref == 1 then -1 else ip;
      HeldIn(t0, i, j) && MarkedBy(t0, v, j)
  {
    forall l: nat | l < |t0| ensures t[l].ref == t0[l].ref + (if l == pip then 1 else 0) + (if l == ip then 1 else 0) {
      assert t[l].ref == t0[l].ref + (multiset{pip} + multiset{ip})[l];
    }
    forall l: nat | l < |t0| ensures v[l].ref == t0[l].ref {
      assert t1[l].ref == t[l].ref;
    }
  }

  lemma ClearedEntry(f: seq<File>, p: nat, e: nat, i: nat, gone: bool)
    requires |f| == INUM && p < INUM && i < INUM && p != i && |f[p].data| % DIRENT_SIZE == 0 && e < Count(f[p].data)
    ensures var f1 := f[p := f[p].(data := Overlay(f[p].data, DIRENT_SIZE * e, Zeros(DIRENT_SIZE)))];
      Removed(f, if gone then f1[i := NO_FILE] else f1, p, e, i, gone)
  {
    OverlayEntry(f[p].data, e, Zeros(DIRENT_SIZE));
    var z := Zeros(DIRENT_SIZE);
    assert z[..4] == [0, 0, 0, 0] && CStr(z[4..]) == [];
    var f1 := f[p := f[p].(data := Overlay(f[p].data, DIRENT_SIZE * e, z))];
    var f' := if gone then f1[i := NO_FILE] else f1;
    assert f' == (if gone then f[i := NO_FILE] else f)[p := f[p].(data := f'[p].data)];
  }

  // ---- what creation and removal mean for later calls ----

  // A successful iremove leaves a consistent system exactly when the name was not that of a
  // directory somebody had open.
  lemma UnlinkSystem(f: seq<File>, f': seq<File>, t: seq<Inode>, t': seq<Inode>, path: seq<byte>, cwd: nat, j: int)
    requires System(f, t) && !Refuses(f, path, cwd) && Unlinks(f, f', t, t', path, cwd, j)
    ensures LookupIno(f[ParentOf(f, path, cwd)].data, LastName(path)) < INUM
    ensures System(f', t') <==>
      !(j >= 0 && f[LookupIno(f[ParentOf(f, path, cwd)].data, LastName(path))].typ == TYPE_DIR)
  {
    var p := ParentOf(f, path, cwd);
    ParentIsDir(f, path, cwd);
    var i := LookupIno(f[p].data, LastName(path));
    hide System, LookupIno, Comps;
    FoundEntry(f, t, p, LastName(path));
    if j >= 0 && f[i].typ == TYPE_DIR {
      if System(f', t') { DirNotUnlinked(f', t', j); }
    } else {
      NamedAllocated(f, t, p, LastName(path));
      RemoveSystem(f, f', t, t', p, EntryFrom(f[p].data, LastName(path), 0), i, j);
    }
  }

  lemma NamedAllocated(f: seq<File>, t: seq<Inode>, p: nat, name: seq<byte>)
    requires System(f, t) && p < INUM && f[p].typ == TYPE_DIR && LookupIno(f[p].data, name) != 0
    ensures LookupIno(f[p].data, name) < INUM && f[LookupIno(f[p].data, name)].typ != TYPE_NONE
  {
    hide System;
    SystemWhole(f, t, p);
    SystemRoot(f, t);
    NamedInode(f, p, name);
  }

  // After creation the directory gives the new inode for the new name, and answers as before for any other name.
  lemma LookupAfterCreate(f: seq<File>, f': seq<File>, p: nat, e: nat, ino: nat, name: Name, typ: u32, other: seq<byte>)
    requires |f| == INUM && p < INUM && 0 < ino < INUM && Created(f, f', p, e, ino, name, typ)
    requires LookupIno(f[p].data, name) == 0
    ensures LookupIno(f'[p].data, other) == if other == name then ino else LookupIno(f[p].data, other)
  {
    var c, c' := f[p].data, f'[p].data;
    FirstEntry(c, name, EntryFrom(c, name, 0));
    hide OnlyDots;
    assert DIRENT_SIZE * e / DIRENT_SIZE == e;
    forall k: nat | k < Count(c')
      ensures Names(c', k, other) <==> if k == e then other == name else Names(c, k, other)
    {}
    assert e < Count(c) ==> !Names(c, e, other);
    if other == name {
      FirstEntry(c', other, e);
    } else {
      var k := EntryFrom(c, other, 0);
      FirstEntry(c, other, k);
      FirstEntry(c', other, if k < Count(c) then k else Count(c'));
    }
  }

  // After removal the name is gone, and the directory answers as before for any other name.
  lemma LookupAfterRemove(f: seq<File>, f': seq<File>, t: seq<Inode>, p: nat, i: nat, name: seq<byte>, gone: bool,
      other: seq<byte>)
    requires System(f, t) && p < INUM && f[p].typ == TYPE_DIR && i < INUM
    requires LookupIno(f[p].data, name) != 0 && Removed(f, f', p, EntryFrom(f[p].data, name, 0), i, gone)
    ensures LookupIno(f'[p].data, other) == if other == name then 0 else LookupIno(f[p].data, other)
  {
    var c, c', e := f[p].data, f'[p].data, EntryFrom(f[p].data, name, 0);
    NamesUnique(f, t, p);
    hide System;
    assert Names(c, e, name);
    forall k: nat | k < Count(c') ensures Names(c', k, other) <==> k != e && Names(c, k, other) {}
    if other == name {
      FirstEntry(c', other, Count(c'));
    } else {
      var k := EntryFrom(c, other, 0);
      FirstEntry(c, other, k);
      FirstEntry(c', other, k);
    }
  }

  lemma NamesUnique(f: seq<File>, t: seq<Inode>, p: nat)
    requires System(f, t) && p < INUM && f[p].typ == TYPE_DIR
    ensures var c := f[p].data;
      forall k: nat, l: nat, n: seq<byte> | Names(c, k, n) && Names(c, l, n) :: k == l
  {
    hide System, NodesOf, Names, Shapes;
    SystemShapes(f, t);
    var c := f[p].data;
    forall k: nat, l: nat, n: seq<byte> | Names(c, k, n) && Names(c, l, n) ensures k == l { NamedOnce(f, p, k, l, n); }
  }

  lemma SystemShapes(f: seq<File>, t: seq<Inode>)
    requires System(f, t)
    ensures |f| == INUM && Shapes(NodesOf(f))
  {
    hide Shapes, Targets, Entered, Homes, DotDots, Marks, NodesOf;
  }

  lemma NamedOnce(f: seq<File>, p: nat, k: nat, l: nat, n: seq<byte>)
    requires p < |f| && f[p].typ == TYPE_DIR && Shapes(NodesOf(f)) && Names(f[p].data, k, n) && Names(f[p].data, l, n)
    ensures k == l
  {
    hide EntIno, EntName, NodesOf;
    NodeEntry(f, p, k);
    NodeEntry(f, p, l);
    assert NameOf(NodesOf(f), p, k) == n && NameOf(NodesOf(f), p, l) == n;
  }

  // ---- what an open means for later walks ----

  // Whatever could be reached before a creation is reached afterwards.
  lemma {:induction false} ResolveAfterCreate(f: seq<File>, f': seq<File>, p: nat, e: nat, ino: nat, name: Name,
      typ: u32,
      i: nat, cs: seq<seq<byte>>)
    requires |f| == INUM && p < INUM && 0 < ino < INUM && Created(f, f', p, e, ino, name, typ)
    requires LookupIno(f[p].data, name) == 0 && Resolve(f, i, cs) != 0
    ensures Resolve(f', i, cs) == Resolve(f, i, cs)
    decreases |cs|
  {
    if cs != [] {
      hide LookupIno, EntrySet, OnlyDots, FreeEntry;
      var next := LookupIno(f[i].data, cs[0]);
      LookupAfterCreate(f, f', p, e, ino, name, typ, cs[0]);
      assert f'[i].typ == f[i].typ && LookupIno(f'[i].data, cs[0]) == next;
      ResolveAfterCreate(f, f', p, e, ino, name, typ, next, cs[1..]);
    }
  }

  // The last name of a path fits an entry.
  lemma LastIsName(path: seq<byte>)
    requires 0 !in path && Comps(path) != []
    ensures |LastName(path)| <= MAX_NAME && 0 !in LastName(path)
  {
    CompsAreNames(path);
    assert LastName(path) in Comps(path);
  }

  // After iopen has opened or created a file, the path leads to it.
  lemma OpenedIsThere(f: seq<File>, f': seq<File>, path: seq<byte>, cwd: nat, typ: u32, ino: nat)
    requires |f| == INUM && 0 !in path && OpenedPath(f, f', path, cwd, typ, ino) && ino != 0
    ensures Target(f', path, cwd) == ino
  {
    hide Comps, LookupIno, Created;
    if Comps(path) != [] {
      var cs, p := Comps(path), ParentOf(f, path, cwd);
      var init, last := cs[..|cs| - 1], LastName(path);
      assert cs == init + [last];
      ParentIsDir(f, path, cwd);
      ResolveLast(f', StartOf(path, cwd), init, last);
      var one := [last];
      assert one[0] == last && one[1..] == [];
      if LookupIno(f[p].data, last) == 0 {
        LastIsName(path);
        var e: nat :| Created(f, f', p, e, ino, last, typ);
        ResolveAfterCreate(f, f', p, e, ino, last, typ, StartOf(path, cwd), init);
        LookupAfterCreate(f, f', p, e, ino, last, typ, last);
        CreatedKinds(f, f', p, e, ino, last, typ);
      }
      assert Resolve(f', p, [last]) == LookupIno(f'[p].data, last);
    }
  }

  lemma CreatedKinds(f: seq<File>, f': seq<File>, p: nat, e: nat, ino: nat, name: seq<byte>, typ: u32)
    requires |f| == INUM && p < INUM && 0 < ino < INUM && Created(f, f', p, e, ino, name, typ)
    ensures |f'| == INUM && f'[p] == f[p].(data := f'[p].data) && f[ino].typ == TYPE_NONE && f'[ino].typ == typ
    ensures forall x: nat | x < INUM && x != p && x != ino :: f'[x] == f[x]
  {}

  // Every path that led somewhere leads there still, and no file that was there has other contents.
  ghost predicate Kept(f: seq<File>, f': seq<File>) {
    && |f'| == |f| == INUM
    && (forall q: seq<byte>, c: nat | Target(f, q, c) != 0 :: Target(f', q, c) == Target(f, q, c))
    && (forall x: nat | x < INUM && f[x].typ != TYPE_NONE ::
      f'[x].typ == f[x].typ && (f[x].typ != TYPE_DIR ==> f'[x].data == f[x].data))
  }

  lemma KeptTwice(f: seq<File>, g: seq<File>, h: seq<File>)
    requires Kept(f, g) && Kept(g, h)
    ensures Kept(f, h)
  {
    hide Target;
  }

  lemma OpenedKeeps(f: seq<File>, f': seq<File>, path: seq<byte>, cwd: nat, typ: u32, ino: nat)
    requires |f| == INUM && 0 !in path && OpenedPath(f, f', path, cwd, typ, ino)
    ensures Kept(f, f')
  {
    hide Comps, LookupIno, Created;
    if f' != f {
      var p, last := ParentOf(f, path, cwd), LastName(path);
      ParentIsDir(f, path, cwd);
      LastIsName(path);
      var e: nat :| Created(f, f', p, e, ino, last, typ);
      CreatedKinds(f, f', p, e, ino, last, typ);
      forall q: seq<byte>, c: nat | Target(f, q, c) != 0 ensures Target(f', q, c) == Target(f, q, c) {
        if Comps(q) != [] { ResolveAfterCreate(f, f', p, e, ino, last, typ, StartOf(q, c), Comps(q)); }
      }
    }
  }
}

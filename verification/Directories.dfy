// kernel/src/fs.c, lines 280-333: looking names up in a directory, and creating entries.
module Directories {
  import opened Options
  import opened Bytes
  import opened DiskCache
  import opened Layout
  import opened Ownership
  import opened Files
  import opened Dirents
  import opened Inodes

  // ---- counting references ----

  // From table t to table t' exactly the references in `got` (by slot) were gained; slots
  // already in use kept their inode and deletion mark, newly used ones are not marked.
  ghost predicate RefsBy(t: seq<Inode>, t': seq<Inode>, got: multiset<nat>) {
    && |t'| == |t|
    && (forall l: nat | l < |t| :: t'[l].ref == t[l].ref + got[l])
    && (forall l: nat | l < |t| && t[l].ref >= 1 :: t'[l].no == t[l].no && t'[l].del == t[l].del)
    && (forall l: nat | l < |t| && t[l].ref == 0 && t'[l].ref >= 1 :: !t'[l].del)
  }

  lemma RefsNone(t: seq<Inode>)
    ensures RefsBy(t, t, multiset{})
  {}

  lemma RefsKept(t: seq<Inode>, u: seq<Inode>, v: seq<Inode>, got: multiset<nat>)
    requires RefsBy(t, u, got) && SameRefs(u, v)
    ensures RefsBy(t, v, got)
  {
    forall l: nat | l < |t| ensures v[l].ref == t[l].ref + got[l] { assert u[l].ref == t[l].ref + got[l]; }
  }

  lemma RefsFrom(t: seq<Inode>, u: seq<Inode>, v: seq<Inode>, got: multiset<nat>)
    requires SameRefs(t, u) && RefsBy(u, v, got)
    ensures RefsBy(t, v, got)
  {
    forall l: nat | l < |t| ensures v[l].ref == t[l].ref + got[l] { assert v[l].ref == u[l].ref + got[l]; }
  }

  lemma RefsOpened(t: seq<Inode>, u: seq<Inode>, v: seq<Inode>, got: multiset<nat>, s: Store, no: nat, j: nat)
    requires RefsBy(t, u, got) && no < INUM && Opened(u, v, s, no, j)
    ensures RefsBy(t, v, got + multiset{j}) && j < |v| && v[j].ref >= 1 && v[j].no == no
  {
    forall l: nat | l < |t| ensures v[l].ref == t[l].ref + (got + multiset{j})[l] {
      assert u[l].ref == t[l].ref + got[l];
    }
  }

  lemma RefsClosed(t: seq<Inode>, u: seq<Inode>, v: seq<Inode>, got: multiset<nat>, j: nat)
    requires RefsBy(t, u, got) && j < |u| && j in got && |v| == |u|
    requires forall l | 0 <= l < |u| && l != j :: v[l] == u[l]
    requires v[j].ref == u[j].ref - 1 && v[j].no == u[j].no && v[j].del == u[j].del
    ensures RefsBy(t, v, got - multiset{j})
  {
    forall l: nat | l < |t| ensures v[l].ref == t[l].ref + (got - multiset{j})[l] {
      assert u[l].ref == t[l].ref + got[l];
    }
    forall l: nat | l < |t| && t[l].ref == 0 && v[l].ref >= 1 ensures !v[l].del {
      assert u[l].ref >= 1;
    }
  }

  // ---- lookup ----

  // A directory whose entries can be followed: whole entries, each naming an allocated inode.
  ghost predicate Followable(f: seq<File>, d: nat)
    requires |f| == INUM
  {
    && d < INUM && f[d].typ == TYPE_DIR
    && |f[d].data| % DIRENT_SIZE == 0
    && forall k: nat | k < Count(f[d].data) && EntIno(f[d].data, k) != 0 ::
      EntIno(f[d].data, k) < INUM && f[EntIno(f[d].data, k)].typ != TYPE_NONE
  }

  // Where the file system runs into an assertion: no block is free, no slot of the inode table, no
  // inode, or a directory has no room for another entry. f is what the files were like.
  ghost predicate Exhausted(fs: Fs, f: seq<File>)
    reads fs, fs.disk, fs.disk.sectors, fs.inodes
  {
    || (fs.disk.sectors.Length == SECT_NUM && Full(fs.V()))
    || (forall j | 0 <= j < fs.inodes.Length :: fs.inodes[j].ref >= 1)
    || (forall i | 1 <= i < |f| :: f[i].typ != TYPE_NONE)
    || (exists i: nat :: i < |f| && f[i].typ == TYPE_DIR && |f[i].data| + DIRENT_SIZE > MAX_FILE)
  }

  lemma ExhaustedBy(fs: Fs, f: seq<File>, d: nat)
    requires (fs.disk.sectors.Length == SECT_NUM && Full(fs.V()))
      || (d < |f| && f[d].typ == TYPE_DIR && |f[d].data| + DIRENT_SIZE > MAX_FILE)
    ensures Exhausted(fs, f)
  {}

  lemma NoneFree(fs: Fs, f: seq<File>)
    requires (forall j | 0 <= j < fs.inodes.Length :: fs.inodes[j].ref >= 1) || forall i | 1 <= i < |f| ::
      f[i].typ != TYPE_NONE
    ensures Exhausted(fs, f)
  {}

  // The loop of ilookup: the index of the entry called name, or the number of entries; the
  // offset where a new entry would go; and the last entry read (the stack buffer).
  method Scan(fs: Fs, pip: nat, name: Name) returns (r: Outcome<nat>, empty: nat, dirent: seq<byte>)
    requires fs.Valid() && fs.Live(pip) && Followable(fs.F(), fs.inodes[pip].no)
    modifies fs`own, fs.inodes, fs.disk.cache, fs.disk.sectors
    ensures |dirent| == DIRENT_SIZE
    ensures r.Abort? ==> Exhausted(fs, old(fs.F()))
    ensures r.Done? ==> fs.Valid() && fs.F() == old(fs.F()) && SameRefs(old(fs.inodes[..]), fs.inodes[..])
    ensures r.Done? ==> var c := old(fs.F())[fs.inodes[pip].no].data;
      r.value == EntryFrom(c, name, 0)
    ensures r.Done? ==> var c := old(fs.F())[fs.inodes[pip].no].data;
      r.value < Count(c) ==> LookupIno(c, name) == Dec32(dirent[..4]) != 0
    ensures r.Done? ==> var c := old(fs.F())[fs.inodes[pip].no].data;
      r.value >= Count(c) ==> LookupIno(c, name) == 0
    ensures r.Done? ==> var c := old(fs.F())[fs.inodes[pip].no].data;
      r.value == Count(c) ==> FreeEntry(c, empty)
  {
    hide Inodes.Fs.Valid, Exhausted, Inodes.Fs.Raw, Inodes.Fs.V, FilesOf, SameRefs, Grew, Full, TableOk, Owned,
      SoundInodes, Followable, Scanned, Names, Absent, FreeEntry, EntIno, EntName, CStr, Window, EntryFrom, LookupIno;
    fs.Mirror(pip);
    SameRefsReflexive(fs.inodes[..]);
    ghost var t0, f0, ino := fs.inodes[..], fs.F(), fs.inodes[pip].no;
    ghost var c := f0[ino].data;
    FollowableShape(f0, ino);
    SizeIsData(fs, pip);
    assert |Zeros(DIRENT_SIZE)| == DIRENT_SIZE;
    dirent :| |dirent| == DIRENT_SIZE;
    var size := fs.Size(pip);
    empty := size;
    var i := 0;
    ghost var k := 0;
    ScanStart(c, name);
    while i < size
      invariant fs.Valid() && fs.disk.sectors.Length == SECT_NUM && SoundInodes(fs.V()) && fs.F() == f0
      invariant SameRefs(t0, fs.inodes[..]) && fs.Live(pip) && fs.inodes[pip].no == ino
      invariant i == DIRENT_SIZE * k && k <= Count(c) && size == |c| && |c| <= MAX_FILE && |dirent| == DIRENT_SIZE
      invariant Scanned(c, name, k, empty)
    {
      ghost var u := fs.inodes[..];
      var got := fs.Iread(pip, i, DIRENT_SIZE);
      if got.Abort? {
        LiveStays(u, fs.inodes[..], pip);
        WindowEntry(c, k);
        ExhaustedBy(fs, f0, ino);
        r := Abort;
        return;
      }
      SameRefsTransitive(t0, u, fs.inodes[..]);
      LiveStays(u, fs.inodes[..], pip);
      fs.Mirror(pip);
      WindowEntry(c, k);
      dirent := got.value;
      var entIno := Dec32(dirent[..4]);
      ScanStep(c, name, k, empty);
      if entIno == 0 {
        if empty == size { empty := i; }
      } else if CStr(dirent[4..]) == name {
        ScanFound(c, name, k, empty);
        r := Done(i / DIRENT_SIZE);
        return;
      }
      i := i + DIRENT_SIZE;
      k := k + 1;
    }
    ScanEnd(c, name, k, empty);
    ScanFound(c, name, k, empty);
    r := Done(i / DIRENT_SIZE);
  }

  // None of the first k entries is called name, and empty is the first unused one, or |c|.
  ghost predicate Scanned(c: seq<byte>, name: seq<byte>, k: nat, empty: nat) {
    && |c| % DIRENT_SIZE == 0 && k <= Count(c)
    && (forall l: nat | l < k :: !Names(c, l, name))
    && if empty == |c| then forall l: nat | l < k :: EntIno(c, l) != 0
       else empty < DIRENT_SIZE * k && FreeEntry(c, empty)
  }

  lemma ScanStart(c: seq<byte>, name: seq<byte>)
    requires |c| % DIRENT_SIZE == 0
    ensures Scanned(c, name, 0, |c|)
  {}

  lemma ScanStep(c: seq<byte>, name: seq<byte>, k: nat, empty: nat)
    requires Scanned(c, name, k, empty) && k < Count(c)
    ensures EntIno(c, k) == 0 ==> Scanned(c, name, k + 1, if empty == |c| then DIRENT_SIZE * k else empty)
    ensures EntIno(c, k) != 0 && EntName(c, k) != name ==> Scanned(c, name, k + 1, empty)
    ensures EntIno(c, k) != 0 && EntName(c, k) == name ==> Names(c, k, name)
  {}

  lemma ScanFound(c: seq<byte>, name: seq<byte>, k: nat, empty: nat)
    requires Scanned(c, name, k, empty) && (k < Count(c) ==> Names(c, k, name))
    ensures EntryFrom(c, name, 0) == k
    ensures LookupIno(c, name) == if k < Count(c) then EntIno(c, k) else 0
    ensures k < Count(c) ==> EntIno(c, k) != 0
  {
    FirstEntry(c, name, k);
  }

  lemma ScanEnd(c: seq<byte>, name: seq<byte>, k: nat, empty: nat)
    requires Scanned(c, name, k, empty) && k == Count(c)
    ensures Absent(c, name) && FreeEntry(c, empty)
  {}

  // The byte offset of the first unused entry, or of the end.
  ghost predicate FreeEntry(c: seq<byte>, empty: nat) {
    && empty % DIRENT_SIZE == 0 && empty <= |c|
    && (empty / DIRENT_SIZE < Count(c) ==> EntIno(c, empty / DIRENT_SIZE) == 0)
    && forall l: nat | l < empty / DIRENT_SIZE && l < Count(c) :: EntIno(c, l) != 0
  }

  lemma FollowableShape(f: seq<File>, d: nat)
    requires |f| == INUM && Followable(f, d)
    ensures d < INUM && f[d].typ == TYPE_DIR && |f[d].data| % DIRENT_SIZE == 0
  {}

  lemma SizeIsData(fs: Fs, ip: nat)
    requires fs.Valid() && fs.Live(ip)
    ensures fs.inodes[ip].no < INUM && fs.Size(ip) == |fs.F()[fs.inodes[ip].no].data| <= MAX_FILE
    ensures fs.inodes[ip].dinode.typ == fs.F()[fs.inodes[ip].no].typ
    ensures fs.inodes[ip].dinode.device == fs.F()[fs.inodes[ip].no].device
  {}

  lemma WindowEntry(c: seq<byte>, k: nat)
    requires k < Count(c)
    ensures var w := Window(c, DIRENT_SIZE * k, DIRENT_SIZE);
      |w| == DIRENT_SIZE && EntIno(c, k) == Dec32(w[..4]) && EntName(c, k) == CStr(w[4..])
  {
    var w := Window(c, DIRENT_SIZE * k, DIRENT_SIZE);
    assert w == c[DIRENT_SIZE * k..DIRENT_SIZE * k + DIRENT_SIZE];
    assert w[..4] == c[DIRENT_SIZE * k..DIRENT_SIZE * k + 4];
    assert w[4..] == c[DIRENT_SIZE * k + 4..DIRENT_SIZE * k + DIRENT_SIZE];
  }

  // ---- creation ----

  // f' is f with a new inode of type typ, entered in directory p as entry e under the given name.
  ghost predicate Created(f: seq<File>, f': seq<File>, p: nat, e: nat, ino: nat, name: seq<byte>, typ: u32)
    requires |f| == INUM && p < INUM && 0 < ino < INUM
  {
    && |f'| == INUM && p != ino && f[ino].typ == TYPE_NONE && f'[ino].typ == typ
    && f' == f[ino := f'[ino]][p := f[p].(data := f'[p].data)]
    && (if typ == TYPE_DIR then OnlyDots(f'[ino].data, ino, p) else f'[ino].data == [])
    && FreeEntry(f[p].data, DIRENT_SIZE * e)
    && EntrySet(f[p].data, f'[p].data, e, ino, name)
  }

  method Idirinit(fs: Fs, ip: nat, pip: nat) returns (r: Outcome<()>)
    requires fs.Valid() && fs.Live(ip) && fs.Live(pip)
    requires fs.F()[fs.inodes[ip].no].typ == TYPE_DIR && fs.F()[fs.inodes[ip].no].data == []
    modifies fs`own, fs.inodes, fs.disk.cache, fs.disk.sectors
    ensures SameRefs(old(fs.inodes[..]), fs.inodes[..])
    ensures r.Abort? ==> fs.disk.sectors.Length == SECT_NUM && Full(fs.V())
    ensures r.Done? ==> fs.Valid()
    ensures r.Done? ==> var f, f', ino, p := old(fs.F()), fs.F(), fs.inodes[ip].no, fs.inodes[pip].no;
      f' == f[ino := f[ino].(data := f'[ino].data)] && OnlyDots(f'[ino].data, ino, p)
  {
    hide Inodes.Fs.Valid, Exhausted, Inodes.Fs.Raw, Inodes.Fs.V, FilesOf, SameRefs, FileWritten, Full, TableOk, Owned,
      SoundInodes, OnlyDots, Fill, Overlay;
    fs.Mirror(ip);
    fs.Mirror(pip);
    SizeIsData(fs, ip);
    ghost var t0, f, ino, p := fs.inodes[..], fs.F(), fs.inodes[ip].no, fs.inodes[pip].no;
    assert |Zeros(DIRENT_SIZE)| == DIRENT_SIZE;
    var dirent: seq<byte> :| |dirent| == DIRENT_SIZE;
    dirent := Fill(dirent, fs.inodes[ip].no, DOT);
    ghost var raw0 := dirent;
    var w := fs.Iwrite(ip, 0, dirent);
    if w.Abort? { return Abort; }
    ghost var t1 := fs.inodes[..];
    LiveStays(t0, t1, ip);
    LiveStays(t0, t1, pip);
    fs.Mirror(ip);
    SizeIsData(fs, ip);
    dirent := Fill(dirent, fs.inodes[pip].no, DOTDOT);
    DotsWritten(raw0, dirent, ino, p);
    w := fs.Iwrite(ip, DIRENT_SIZE, dirent);
    SameRefsTransitive(t0, t1, fs.inodes[..]);
    LiveStays(t0, fs.inodes[..], ip);
    LiveStays(t0, fs.inodes[..], pip);
    if w.Abort? { return Abort; }
    return Done(());
  }

  lemma DotsWritten(raw0: seq<byte>, raw1: seq<byte>, ino: u32, p: u32)
    requires |raw0| == DIRENT_SIZE && |raw1| == DIRENT_SIZE
    requires exists b: seq<byte> :: |b| == DIRENT_SIZE && raw0 == Fill(b, ino, DOT)
    requires raw1 == Fill(raw0, p, DOTDOT)
    ensures |Overlay([], 0, raw0)| == DIRENT_SIZE
    ensures OnlyDots(Overlay(Overlay([], 0, raw0), DIRENT_SIZE, raw1), ino, p)
  {
    var b :| |b| == DIRENT_SIZE && raw0 == Fill(b, ino, DOT);
    FillMeans(b, ino, DOT);
    FillMeans(raw0, p, DOTDOT);
    OverlayEntry([], 0, raw0);
    OverlayEntry(Overlay([], 0, raw0), 1, raw1);
  }

  // The second half of ilookup: no entry has the name, make one.
  method Icreate(fs: Fs, pip: nat, name: Name, typ: u32, empty: nat, buf: seq<byte>) returns (r: Outcome<Option<nat>>)
    requires fs.Valid() && fs.Live(pip) && Followable(fs.F(), fs.inodes[pip].no) && typ != TYPE_NONE
    requires |buf| == DIRENT_SIZE && FreeEntry(fs.F()[fs.inodes[pip].no].data, empty)
    modifies fs`own, fs.inodes, fs.disk.cache, fs.disk.sectors
    ensures r.Done? ==> fs.Valid() && fs.Live(pip) && fs.inodes[pip].no == old(fs.inodes[pip].no)
    ensures r.Abort? ==> Exhausted(fs, old(fs.F()))
    ensures r.Done? ==> r.value.Some? && fs.Live(r.value.value) && 0 < fs.inodes[r.value.value].no < INUM
    ensures r.Done? ==> RefsBy(old(fs.inodes[..]), fs.inodes[..], multiset{r.value.value})
    ensures r.Done? ==> var f, p, ino := old(fs.F()), fs.inodes[pip].no, fs.inodes[r.value.value].no;
      exists e: nat :: Created(f, fs.F(), p, e, ino, name, typ)
  {
    hide Inodes.Fs.Valid, Exhausted, Inodes.Fs.Raw, Inodes.Fs.V, FilesOf, SameRefs, Full, TableOk, Owned, SoundInodes,
      Followable, FreeEntry,
      EntIno, EntName, Opened, RefsBy, OnlyDots, Fill, Overlay, EntrySet, FileWritten;
    fs.Mirror(pip);
    SizeIsData(fs, pip);
    ghost var t0, f, p := fs.inodes[..], fs.F(), fs.inodes[pip].no;
    RefsNone(t0);
    FollowableShape(f, p);
    FreeEntryBound(f[p].data, empty);
    var a := fs.Ialloc(typ);
    if a.Abort? {
      NoneFree(fs, f);
      return Abort;
    }
    var ino := a.value;
    var g := fs.Iget(ino);
    if g.Abort? {
      NoneFree(fs, f);
      return Abort;
    }
    var ip := g.value;
    ghost var t1 := fs.inodes[..];
    RefsOpened(t0, t0, t1, multiset{}, fs.V(), ino, ip);
    assert multiset{} + multiset{ip} == multiset{ip};
    RefsLive(t0, t1, multiset{ip}, pip);
    fs.Mirror(ip);
    if typ == TYPE_DIR {
      var d := Idirinit(fs, ip, pip);
      if d.Abort? {
        ExhaustedBy(fs, f, p);
        return Abort;
      }
    }
    ghost var t2 := fs.inodes[..];
    SameRefsReflexive(t1);
    RefsKept(t0, t1, t2, multiset{ip});
    LiveStays(t1, t2, pip);
    LiveStays(t1, t2, ip);
    fs.Mirror(pip);
    SizeIsData(fs, pip);
    ghost var f2 := fs.F();
    var dirent := Fill(buf, ino, name);
    FillMeans(buf, ino, name);
    OverlayEntry(f[p].data, empty / DIRENT_SIZE, dirent);
    var w := fs.Iwrite(pip, empty, dirent);
    if w.Abort? {
      ExhaustedBy(fs, f, p);
      return Abort;
    }
    RefsKept(t0, t2, fs.inodes[..], multiset{ip});
    LiveStays(t2, fs.inodes[..], pip);
    LiveStays(t2, fs.inodes[..], ip);
    fs.Mirror(pip);
    assert Created(f, fs.F(), p, empty / DIRENT_SIZE, ino, name, typ);
    return Done(Some(ip));
  }

  lemma FreeEntryBound(c: seq<byte>, empty: nat)
    requires FreeEntry(c, empty)
    ensures empty <= |c| && empty == DIRENT_SIZE * (empty / DIRENT_SIZE)
  {}

  // The inode called name in directory pip, opened; if there is none and typ is not TYPE_NONE,
  // a new one. off is the offset of the entry found.
  method Ilookup(fs: Fs, pip: nat, name: Name, typ: u32) returns (r: Outcome<Option<nat>>, off: nat)
    requires fs.Valid() && fs.Live(pip) && Followable(fs.F(), fs.inodes[pip].no)
    modifies fs`own, fs.inodes, fs.disk.cache, fs.disk.sectors
    ensures r.Done? ==> fs.Valid() && fs.Live(pip) && fs.inodes[pip].no == old(fs.inodes[pip].no)
    ensures r.Abort? ==> Exhausted(fs, old(fs.F()))
    ensures r.Done? ==> (r.value.None? <==>
      LookupIno(old(fs.F())[fs.inodes[pip].no].data, name) == 0 && typ == TYPE_NONE)
    ensures r.Done? && r.value.None? ==> fs.F() == old(fs.F()) && RefsBy(old(fs.inodes[..]), fs.inodes[..], multiset{})
    ensures r.Done? && r.value.Some? ==> fs.Live(r.value.value)
    ensures r.Done? && r.value.Some? ==> RefsBy(old(fs.inodes[..]), fs.inodes[..], multiset{r.value.value})
    ensures r.Done? && r.value.Some? ==>
      Looked(old(fs.F()), fs.F(), fs.inodes[pip].no, fs.inodes[r.value.value].no, name, typ, off)
  {
    hide Inodes.Fs.Valid, Exhausted, Inodes.Fs.Raw, Inodes.Fs.V, FilesOf, SameRefs, Full, TableOk, Owned, SoundInodes,
      Followable, FreeEntry,
      EntIno, EntName, Opened, RefsBy, LookupIno, EntryFrom, OnlyDots, Fill, Overlay, EntrySet, FileWritten, Created;
    fs.Mirror(pip);
    SizeIsData(fs, pip);
    ghost var t0, f, p := fs.inodes[..], fs.F(), fs.inodes[pip].no;
    ghost var c := f[p].data;
    off := 0;
    RefsNone(t0);
    FollowableShape(f, p);
    var k, empty, dirent := Scan(fs, pip, name);
    if k.Abort? { return Abort, off; }
    ghost var t1 := fs.inodes[..];
    LiveStays(t0, t1, pip);
    RefsKept(t0, t0, t1, multiset{});
    fs.Mirror(pip);
    SizeIsData(fs, pip);
    if DIRENT_SIZE * k.value < fs.Size(pip) {
      off := DIRENT_SIZE * k.value;
      NamedInode(f, p, name);
      var g := fs.Iget(Dec32(dirent[..4]));
      if g.Abort? {
        NoneFree(fs, f);
        return Abort, off;
      }
      RefsOpened(t0, t1, fs.inodes[..], multiset{}, fs.V(), LookupIno(c, name), g.value);
      RefsLive(t0, fs.inodes[..], multiset{g.value}, pip);
      assert multiset{} + multiset{g.value} == multiset{g.value};
      return Done(Some(g.value)), off;
    }
    if typ == TYPE_NONE { return Done(None), off; }
    r := Icreate(fs, pip, name, typ, empty, dirent);
    if r.Done? { RefsFrom(t0, t1, fs.inodes[..], multiset{r.value.value}); }
  }

  // What a successful lookup or creation means.
  ghost predicate Looked(f: seq<File>, f': seq<File>, p: nat, ino: nat, name: seq<byte>, typ: u32, off: nat)
    requires |f| == INUM && p < INUM
  {
    var c := f[p].data;
    if LookupIno(c, name) != 0 then
      f' == f && ino == LookupIno(c, name) && off == DIRENT_SIZE * EntryFrom(c, name, 0)
    else
      typ != TYPE_NONE && 0 < ino < INUM && exists e: nat :: Created(f, f', p, e, ino, name, typ)
  }

  lemma NamedInode(f: seq<File>, d: nat, name: seq<byte>)
    requires |f| == INUM && Followable(f, d) && LookupIno(f[d].data, name) != 0
    ensures 0 < LookupIno(f[d].data, name) < INUM && f[LookupIno(f[d].data, name)].typ != TYPE_NONE
  {}

  lemma RefsLive(t: seq<Inode>, t': seq<Inode>, got: multiset<nat>, l: nat)
    requires RefsBy(t, t', got) && l < |t| && t[l].ref >= 1
    ensures l < |t'| && t'[l].ref >= 1 && t'[l].no == t[l].no && t'[l].del == t[l].del
  {}
}

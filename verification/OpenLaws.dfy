// What open, read, write and lseek promise about a path and an open file, case by case: laws about
// kernel/src/file.c that do not depend on how its parts are specified.
module OpenLaws {
  import opened Options
  import opened Bytes
  import opened Layout
  import opened Ownership
  import opened Files
  import opened Dirents
  import opened Inodes
  import opened Directories
  import opened Paths
  import opened Namespace
  import opened Namei
  import opened OpenFiles

  // A path leads to what its parent directory calls its last name.
  lemma LeadsByParent(f: seq<File>, path: seq<byte>, cwd: nat)
    requires ParentOf(f, path, cwd) != 0
    ensures Comps(path) != [] && ParentOf(f, path, cwd) < |f|
    ensures Target(f, path, cwd) == LookupIno(f[ParentOf(f, path, cwd)].data, LastName(path))
  {
    var cs, p := Comps(path), ParentOf(f, path, cwd);
    var init, last := cs[..|cs| - 1], LastName(path);
    assert cs == init + [last];
    ResolveLast(f, StartOf(path, cwd), init, last);
    var one := [last];
    assert one[1..] == [] && one[0] == last;
    hide Comps, LookupIno, ParentOf;
    assert Resolve(f, p, one) == Resolve(f, LookupIno(f[p].data, last), []);
  }

  lemma {:induction false} NoParentNoTarget(f: seq<File>, path: seq<byte>, cwd: nat)
    requires ParentOf(f, path, cwd) == 0 && Comps(path) != []
    ensures Target(f, path, cwd) == 0
  {
    var cs := Comps(path);
    var init, last := cs[..|cs| - 1], LastName(path);
    assert cs == init + [last];
    ResolveLast(f, StartOf(path, cwd), init, last);
  }

  // The entry of the file table is on inode i.
  predicate OnInode(got: Option<OpenFile>, t: seq<Inode>, i: nat) {
    && got.Some? && got.value.typ == TYPE_FILE
    && got.value.inode < |t| && t[got.value.inode].no == i && t[got.value.inode].ref >= 1
  }

  // Nothing but directory p and inode i has changed.
  predicate OnlyThese(f: seq<File>, f': seq<File>, p: nat, i: nat) {
    |f'| == |f| && forall x: nat | x < |f| && x != p && x != i :: f'[x] == f[x]
  }

  lemma Missing(f: seq<File>, f1: seq<File>, path: seq<byte>, cwd: nat, typ: u32, ino: nat)
    requires |f| == INUM && 0 !in path && OpenedPath(f, f1, path, cwd, typ, ino)
    requires ParentOf(f, path, cwd) != 0 && Target(f, path, cwd) == 0
    ensures typ == TYPE_NONE ==> f1 == f && ino == 0
    ensures typ != TYPE_NONE ==>
      && 0 < ino < |f1| == INUM && Target(f1, path, cwd) == ino && f1[ino].typ == typ
      && OnlyThese(f, f1, ParentOf(f, path, cwd), ino)
      && if typ == TYPE_DIR then OnlyDots(f1[ino].data, ino, ParentOf(f, path, cwd)) else f1[ino].data == []
  {
    var p := ParentOf(f, path, cwd);
    ParentIsDir(f, path, cwd);
    LeadsByParent(f, path, cwd);
    hide Comps, LookupIno, ParentOf, EntrySet, FreeEntry, OnlyDots, Resolve;
    if typ != TYPE_NONE {
      OpenedIsThere(f, f1, path, cwd, typ, ino);
      var e: nat :| Created(f, f1, p, e, ino, LastName(path), typ);
      CreatedKinds(f, f1, p, e, ino, LastName(path), typ);
    }
  }

  lemma There(f: seq<File>, f1: seq<File>, path: seq<byte>, cwd: nat, typ: u32, ino: nat)
    requires |f| == INUM && OpenedPath(f, f1, path, cwd, typ, ino) && Target(f, path, cwd) != 0
    ensures f1 == f && ino == Target(f, path, cwd)
  {
    if Comps(path) != [] {
      if ParentOf(f, path, cwd) == 0 {
        NoParentNoTarget(f, path, cwd);
      } else {
        LeadsByParent(f, path, cwd);
      }
    }
  }

  // ---- a path that leads nowhere ----

  // mkdir: a directory with nothing but its dots, open for reading. Asked for with a way to write, it is
  // made all the same, and then refused.
  lemma MakesDirectory(f: seq<File>, f': seq<File>, path: seq<byte>, cwd: nat, mode: Mode, t': seq<Inode>,
      got: Option<OpenFile>)
    requires |f| == INUM && 0 !in path && Opening(f, f', path, cwd, mode, t', got)
    requires ParentOf(f, path, cwd) != 0 && Target(f, path, cwd) == 0 && mode.create && mode.dir
    ensures var i := Target(f', path, cwd);
      && i != 0 && IsDirectory(f', i) && OnlyDots(f'[i].data, i, ParentOf(f, path, cwd))
      && OnlyThese(f, f', ParentOf(f, path, cwd), i)
      && if mode.wronly || mode.rdwr || mode.trunc then got.None? else OnInode(got, t', i)
  {
    hide OpenedPath, OnlyDots, OnlyThese, Target, ParentOf;
    var f1, ino: nat :| OpenedPath(f, f1, path, cwd, TypeFor(mode), ino)
      && if ino == 0 then got.None? && f' == f1 else Granted(f1, f', t', mode, ino, got);
    Missing(f, f1, path, cwd, TypeFor(mode), ino);
  }

  lemma EmptySame(f: seq<File>, i: nat)
    requires i < |f| && f[i].data == []
    ensures f[i := f[i].(data := [])] == f
  {}

  // Output to a new file: it is there, and empty.
  lemma MakesFile(f: seq<File>, f': seq<File>, path: seq<byte>, cwd: nat, mode: Mode, t': seq<Inode>,
      got: Option<OpenFile>)
    requires |f| == INUM && 0 !in path && Opening(f, f', path, cwd, mode, t', got)
    requires ParentOf(f, path, cwd) != 0 && Target(f, path, cwd) == 0 && mode.create && !mode.dir
    ensures var i := Target(f', path, cwd);
      && 0 < i < |f'| && f'[i].typ == TYPE_FILE && f'[i].data == []
      && OnlyThese(f, f', ParentOf(f, path, cwd), i) && OnInode(got, t', i)
  {
    hide OpenedPath, OnlyDots, OnlyThese, Target, ParentOf;
    var f1, ino: nat :| OpenedPath(f, f1, path, cwd, TypeFor(mode), ino)
      && if ino == 0 then got.None? && f' == f1 else Granted(f1, f', t', mode, ino, got);
    Missing(f, f1, path, cwd, TypeFor(mode), ino);
    EmptySame(f1, ino);
  }

  // Without O_CREATE, or without a directory to hold it, nothing is opened and nothing made.
  lemma FindsNothing(f: seq<File>, f': seq<File>, path: seq<byte>, cwd: nat, mode: Mode, t': seq<Inode>,
      got: Option<OpenFile>)
    requires |f| == INUM && 0 !in path && Opening(f, f', path, cwd, mode, t', got)
    requires Target(f, path, cwd) == 0 && (!mode.create || ParentOf(f, path, cwd) == 0)
    ensures got.None? && f' == f
  {
    var f1, ino: nat :| OpenedPath(f, f1, path, cwd, TypeFor(mode), ino)
      && if ino == 0 then got.None? && f' == f1 else Granted(f1, f', t', mode, ino, got);
    hide LookupIno, Created, Granted;
    if ParentOf(f, path, cwd) != 0 {
      hide OpenedPath, Target, ParentOf;
      Missing(f, f1, path, cwd, TypeFor(mode), ino);
    }
  }

  // ---- a path that leads to a file ----

  // An existing file is not opened as a directory; otherwise it is, and O_TRUNC alone empties it.
  lemma OpensFile(f: seq<File>, f': seq<File>, path: seq<byte>, cwd: nat, mode: Mode, t': seq<Inode>,
      got: Option<OpenFile>)
    requires |f| == INUM && Opening(f, f', path, cwd, mode, t', got)
    requires 0 < Target(f, path, cwd) < |f| && f[Target(f, path, cwd)].typ == TYPE_FILE
    ensures var i := Target(f, path, cwd);
      if mode.dir then got.None? && f' == f
      else OnInode(got, t', i) && f' == if mode.trunc then f[i := f[i].(data := [])] else f
  {
    hide OpenedPath, Target;
    var f1, ino: nat :| OpenedPath(f, f1, path, cwd, TypeFor(mode), ino)
      && if ino == 0 then got.None? && f' == f1 else Granted(f1, f', t', mode, ino, got);
    There(f, f1, path, cwd, TypeFor(mode), ino);
  }

  // A directory is only ever opened for reading.
  lemma OpensDirectory(f: seq<File>, f': seq<File>, path: seq<byte>, cwd: nat, mode: Mode, t': seq<Inode>,
      got: Option<OpenFile>)
    requires |f| == INUM && Opening(f, f', path, cwd, mode, t', got) && IsDirectory(f, Target(f, path, cwd))
    ensures f' == f
    ensures if mode.wronly || mode.rdwr || mode.trunc then got.None? else OnInode(got, t', Target(f, path, cwd))
  {
    hide OpenedPath, Target;
    var f1, ino: nat :| OpenedPath(f, f1, path, cwd, TypeFor(mode), ino)
      && if ino == 0 then got.None? && f' == f1 else Granted(f1, f', t', mode, ino, got);
    There(f, f1, path, cwd, TypeFor(mode), ino);
  }

  // A device node is opened however it is asked for.
  lemma OpensDevice(f: seq<File>, f': seq<File>, path: seq<byte>, cwd: nat, mode: Mode, t': seq<Inode>,
      got: Option<OpenFile>)
    requires |f| == INUM && Opening(f, f', path, cwd, mode, t', got)
    requires 0 < Target(f, path, cwd) < |f| && f[Target(f, path, cwd)].typ == TYPE_DEV
    ensures f' == f && got.Some? && got.value.typ == TYPE_DEV && got.value.dev == f[Target(f, path, cwd)].device
  {
    hide OpenedPath, Target;
    var f1, ino: nat :| OpenedPath(f, f1, path, cwd, TypeFor(mode), ino)
      && if ino == 0 then got.None? && f' == f1 else Granted(f1, f', t', mode, ino, got);
    There(f, f1, path, cwd, TypeFor(mode), ino);
  }

  // ---- access ----

  // What an entry opened with O_RDONLY, O_WRONLY or O_RDWR is good for: it starts at the first byte, is
  // read unless O_WRONLY was asked for, and written if O_WRONLY or O_RDWR was.
  lemma Access(f: seq<File>, f': seq<File>, t: seq<Inode>, before: seq<OpenFile>, files: seq<OpenFile>, k: nat,
      mode: Mode, files': seq<OpenFile>, size: nat, buf: seq<byte>, r: Reading, w: Writing)
    requires TableEntry(before, files, k, mode) && files[k].typ == TYPE_FILE
    requires Reads(f, t, files, files', k, size, r)
    ensures mode.wronly ==> r == NotRead
    ensures !mode.wronly ==> r == Read(Window(DataOf(f, t, files[k]), 0, size))
    ensures !mode.wronly && |DataOf(f, t, files[k])| <= size ==> r == Reading.Read(DataOf(f, t, files[k]))
    ensures Writes(f, f', t, files, files', k, buf, w) ==>
      if mode.wronly || mode.rdwr then w == Written(|buf|) && Overlaid(f, f', t, files[k], buf) else
        w == Written(-1) && f' == f
  {}

  // ---- lseek ----

  // From the end, a write appends.
  lemma EndAppends(f: seq<File>, f': seq<File>, t: seq<Inode>, files: seq<OpenFile>, moved: seq<OpenFile>,
      files': seq<OpenFile>, k: nat, buf: seq<byte>, r: u32, w: Writing)
    requires Seeks(f, t, files, moved, k, 0, End, r) && files[k].typ == TYPE_FILE && files[k].writable
    requires |DataOf(f, t, files[k])| <= MAX_FILE && Writes(f, f', t, moved, files', k, buf, w)
    ensures w == Written(|buf|) && r == |DataOf(f, t, files[k])|
    ensures files[k].inode < |t| && t[files[k].inode].no < |f|
    ensures var i := t[files[k].inode].no;
      f' == f[i := f[i].(data := f[i].data + buf)] && files'[k].offset == |f'[i].data|
  {
    var d := DataOf(f, t, files[k]);
    assert Overlay(d, |d|, buf) == d + buf;
  }

  // Set goes to the place given; Cur goes on from where the file is, or back; Cur with 0 tells where it is.
  lemma SetAndCur(f: seq<File>, t: seq<Inode>, files: seq<OpenFile>, files': seq<OpenFile>, k: nat, off: u32,
      whence: Whence, r: u32)
    requires Seeks(f, t, files, files', k, off, whence, r) && files[k].typ == TYPE_FILE
    ensures files' == files[k := files[k].(offset := r)]
    ensures whence == Set ==> r == off
    ensures whence == Cur && off == 0 ==> r == files[k].offset && files' == files
    ensures whence == Cur && files[k].offset + off < 0x1_0000_0000 ==> r == files[k].offset + off
    ensures whence == Cur && 0x1_0000_0000 <= files[k].offset + off ==> r == files[k].offset - (0x1_0000_0000 - off)
  {}

  // On a device there is no place to go to.
  lemma NoPlace(f: seq<File>, t: seq<Inode>, files: seq<OpenFile>, files': seq<OpenFile>, k: nat, off: u32,
      whence: Whence, r: u32)
    requires Seeks(f, t, files, files', k, off, whence, r) && files[k].typ == TYPE_DEV
    ensures r == 0xFFFF_FFFF && files' == files
  {}

  // ---- one call after the other ----

  lemma WindowParts(d: seq<byte>, o: nat, n: nat, m: nat)
    ensures Window(d, o, n) + Window(d, o + |Window(d, o, n)|, m) == Window(d, o, n + m)
  {
    if o < |d| {
      if o + n + m <= |d| {
        assert d[o..o + n] + d[o + n..o + n + m] == d[o..o + n + m];
      } else if o + n <= |d| {
        assert d[o..o + n] + d[o + n..] == d[o..];
      }
    }
  }

  // What is read in two pieces is what is read at once.
  lemma ReadInParts(f: seq<File>, t: seq<Inode>, a: seq<OpenFile>, b: seq<OpenFile>, c: seq<OpenFile>, k: nat,
      n: nat, m: nat, r: Reading, q: Reading)
    requires Reads(f, t, a, b, k, n, r) && Reads(f, t, b, c, k, m, q) && a[k].readable && a[k].typ == TYPE_FILE
    ensures r.Read? && q.Read? && r.data + q.data == Window(DataOf(f, t, a[k]), a[k].offset, n + m)
  {
    hide Window;
    assert DataOf(f, t, b[k]) == DataOf(f, t, a[k]);
    WindowParts(DataOf(f, t, a[k]), a[k].offset, n, m);
  }

  // What was written is there for who goes back and reads.
  lemma WrittenIsRead(f: seq<File>, f': seq<File>, t: seq<Inode>, a: seq<OpenFile>, b: seq<OpenFile>,
      c: seq<OpenFile>, d: seq<OpenFile>, k: nat, buf: seq<byte>, o: u32, w: Writing, r: Reading)
    requires Writes(f, f', t, a, b, k, buf, w) && Seeks(f', t, b, c, k, a[k].offset, Set, o)
    requires Reads(f', t, c, d, k, |buf|, r)
    requires a[k].readable && a[k].writable && a[k].typ == TYPE_FILE && a[k].offset <= |DataOf(f, t, a[k])|
    ensures w == Written(|buf|) && r == Reading.Read(buf)
  {
    var was, now := DataOf(f, t, a[k]), DataOf(f', t, c[k]);
    assert now == Overlay(was, a[k].offset, buf);
    assert buf == [] || now[a[k].offset..a[k].offset + |buf|] == buf;
  }

  // ---- unlink ----

  // unlink refuses a path that leads nowhere, the root, the dots, and a directory with other entries than
  // its dots; nothing else.
  lemma RefusedWhen(f: seq<File>, path: seq<byte>, cwd: nat)
    ensures Refuses(f, path, cwd) <==>
      var i := Target(f, path, cwd);
      Comps(path) == [] || i == 0 || LastName(path) == DOT || LastName(path) == DOTDOT
      || (IsDirectory(f, i) && exists k: nat :: 2 <= k < Count(f[i].data) && EntIno(f[i].data, k) != 0)
  {
    hide LookupIno, EntIno;
    if Comps(path) != [] {
      if ParentOf(f, path, cwd) == 0 {
        NoParentNoTarget(f, path, cwd);
      } else {
        LeadsByParent(f, path, cwd);
      }
    }
  }

  lemma {:induction false} ResolveAfterRemove(f: seq<File>, f': seq<File>, t: seq<Inode>, p: nat, i: nat,
      name: seq<byte>, gone: bool, x: nat, cs: seq<seq<byte>>)
    requires System(f, t) && |f| == INUM && p < INUM && f[p].typ == TYPE_DIR && i < INUM
    requires LookupIno(f[p].data, name) != 0 && Removed(f, f', p, EntryFrom(f[p].data, name, 0), i, gone)
    ensures Resolve(f', x, cs) == 0 || Resolve(f', x, cs) == Resolve(f, x, cs)
    decreases |cs|
  {
    hide System, LookupIno, EntrySet, EntryFrom;
    if cs != [] && 0 < x < |f'| && f'[x].typ == TYPE_DIR {
      assert f[x].typ == TYPE_DIR;
      LookupAfterRemove(f, f', t, p, i, name, gone, cs[0]);
      var next := LookupIno(f'[x].data, cs[0]);
      if next != 0 {
        assert next == LookupIno(f[x].data, cs[0]);
        ResolveAfterRemove(f, f', t, p, i, name, gone, next, cs[1..]);
      } else {
        assert Resolve(f', 0, cs[1..]) == 0;
      }
    }
  }

  // After an unlink the path leads nowhere, and no other path leads to something else than before.
  lemma UnlinkedIsGone(f: seq<File>, f': seq<File>, t: seq<Inode>, t': seq<Inode>, path: seq<byte>, cwd: nat, j: int,
      q: seq<byte>, c: nat)
    requires System(f, t) && Unlinks(f, f', t, t', path, cwd, j)
    ensures Target(f', path, cwd) == 0
    ensures Target(f', q, c) == 0 || Target(f', q, c) == Target(f, q, c)
  {
    hide System, LookupIno, Comps, Removed, EntryFrom, Resolve;
    ParentIsDir(f, path, cwd);
    var p := ParentOf(f, path, cwd);
    var cs, name, i := Comps(path), LastName(path), LookupIno(f[p].data, LastName(path));
    var init := cs[..|cs| - 1];
    var x, x' := Resolve(f, StartOf(path, cwd), init), Resolve(f', StartOf(path, cwd), init);
    ResolveAfterRemove(f, f', t, p, i, name, j < 0, StartOf(path, cwd), init);
    ResolveAfterRemove(f, f', t, p, i, name, j < 0, StartOf(q, c), Comps(q));
    LookupAfterRemove(f, f', t, p, i, name, j < 0, name);
    if ParentOf(f', path, cwd) == 0 {
      NoParentNoTarget(f', path, cwd);
    } else {
      LeadsByParent(f', path, cwd);
    }
  }
}

// kernel/src/loader.c, the file half of load_elf (lines 9-42): open by path, read, close.
module Loader {
  import opened Options
  import opened Bytes
  import opened Layout
  import opened Ownership
  import opened Files
  import opened Inodes
  import opened Directories
  import opened Paths
  import opened Namespace
  import opened Namei
  import opened OpenFiles

  // One iread of the file a path names; none if there is no such file.
  method LoadFile(ft: FileTable, path: seq<byte>, off: u32, size: u32, cwd: nat, ghost cwds: multiset<nat>)
    returns (r: Outcome<Option<seq<byte>>>)
    requires ft.Valid(cwds) && Ready(ft.fs, cwd) && 0 !in path
    modifies ft.fs`own, ft.fs.inodes, ft.fs.disk.cache, ft.fs.disk.sectors
    ensures r.Done? ==> ft.Valid(cwds) && ft.fs.F() == old(ft.fs.F())
    ensures r.Done? ==>
      r.value == Loaded(old(ft.fs.F()), Target(old(ft.fs.F()), path, old(ft.fs.inodes[cwd].no)), off, size)
    ensures r.Abort? && !Exhausted(ft.fs, old(ft.fs.F())) ==>
      var got := Loaded(old(ft.fs.F()), Target(old(ft.fs.F()), path, old(ft.fs.inodes[cwd].no)), off, size);
      got.Some? && off + |got.value| >= MAX_FILE
  {
    hide Target, Exhausted, Inodes.Fs.Valid, Inodes.Fs.Raw, Inodes.Fs.V, Inodes.Fs.F, FilesOf, ViewOf, System,
      Accounted, Holds, Hold, Owned, SoundInodes, TableOk, Deleted, Writers, OpenedPath, Comps, SameRefs, RefsBy,
      TypesKept, Window, Full, Grew;
    var fs := ft.fs;
    fs.Sound();
    ghost var t0, f := fs.inodes[..], fs.F();
    LiveAllocated(fs);
    var o := Iopen(fs, path, TYPE_NONE, cwd);
    if o.Abort? { return Abort; }
    fs.Sound();
    if o.value.None? {
      OpenedTypes(f, fs.F(), t0, fs.inodes[..], path, t0[cwd].no, TYPE_NONE, 0, multiset{});
      OpenIsResolve(f, fs.F(), path, t0[cwd].no, 0);
      Settle(ft.files[..], t0, fs.inodes[..], f, fs.F(), cwds);
      return Done(None);
    }
    var ip := o.value.value;
    fs.Mirror(ip);
    ghost var t1, i := fs.inodes[..], fs.inodes[ip].no;
    OpenedTypes(f, fs.F(), t0, t1, path, t0[cwd].no, TYPE_NONE, i, multiset{ip});
    OpenIsResolve(f, fs.F(), path, t0[cwd].no, i);
    var got := fs.Iread(ip, off, size);
    LiveStays(t1, fs.inodes[..], ip);
    if got.Abort? {
      if Full(fs.V()) { FullIsExhausted(fs, f); }
      return Abort;
    }
    fs.Sound();
    SystemSame(f, t1, fs.inodes[..]);
    RefsKept(t0, t1, fs.inodes[..], multiset{ip});
    TypesRead(f, t0, t1, fs.inodes[..]);
    ft.NotTaken(ip, t0, f, cwds);
    return Done(Some(got.value));
  }

  function Loaded(f: seq<File>, i: nat, off: nat, size: nat): Option<seq<byte>> {
    if 0 < i < |f| then Some(Window(f[i].data, off, size)) else None
  }

  lemma FullIsExhausted(fs: Fs, f: seq<File>)
    requires fs.disk.sectors.Length == DiskCache.SECT_NUM && Full(fs.V())
    ensures Exhausted(fs, f)
  {}

  lemma TypesRead(f: seq<File>, t0: seq<Inode>, t: seq<Inode>, t': seq<Inode>)
    requires TypesKept(f, t0, f, t) && SameRefs(t, t')
    ensures TypesKept(f, t0, f, t')
  {}
}

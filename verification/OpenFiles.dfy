// kernel/src/file.c: the table of open files, and the references it holds on inodes.
module OpenFiles {
  import opened Options
  import opened Bags
  import opened Bytes
  import opened DiskCache
  import opened Layout
  import opened Ownership
  import opened Files
  import opened Dirents
  import opened Inodes
  import opened Directories
  import opened Paths
  import opened Namespace
  import opened Namei

  const TOTAL_FILE := 128

  datatype Mode = Mode(wronly: bool, rdwr: bool, create: bool, trunc: bool, dir: bool)
  datatype OpenFile = OpenFile(typ: u32, ref: nat, readable: bool, writable: bool, inode: nat, offset: u32, dev: u32)

  // What read() and write() come to: a result, or a call of the device's own function.
  datatype Reading = NotRead | Read(data: seq<byte>) | FromDevice(dev: u32)
  datatype Writing = Written(n: int) | ToDevice(dev: u32)

  datatype Whence = Set | Cur | End

  // The inode an open file holds a reference on.
  function Hold(f: OpenFile): multiset<nat> {
    if f.ref >= 1 && f.typ == TYPE_FILE then multiset{f.inode} else multiset{}
  }

  function Holds(files: seq<OpenFile>): multiset<nat> { Bag(files, Hold) }

  lemma HoldsUpdate(files: seq<OpenFile>, k: nat, f: OpenFile)
    requires k < |files|
    ensures Hold(files[k]) <= Holds(files)
    ensures Holds(files[k := f]) == Holds(files) - Hold(files[k]) + Hold(f)
  {
    BagUpdate(files, Hold, k, f);
  }

  lemma HoldCases(f: OpenFile, g: OpenFile)
    requires f.typ == g.typ && f.inode == g.inode && (f.typ == TYPE_FILE ==> (f.ref >= 1 <==> g.ref >= 1))
    ensures Hold(f) == Hold(g)
  {}

  lemma HoldsSame(files: seq<OpenFile>, k: nat, f: OpenFile)
    requires k < |files| && Hold(f) == Hold(files[k])
    ensures Holds(files[k := f]) == Holds(files)
  {
    HoldsUpdate(files, k, f);
  }

  // Every reference count in the inode table is accounted for: one for each open regular file
  // or directory on it, one for each working directory.
  ghost predicate Accounted(files: seq<OpenFile>, t: seq<Inode>, cwds: multiset<nat>) {
    && (forall l: nat | l < |t| :: t[l].ref == Holds(files)[l] + cwds[l])
    && (forall l: nat | l in Holds(files) || l in cwds :: l < |t|)
  }

  ghost predicate Kinds(files: seq<OpenFile>) {
    forall k | 0 <= k < |files| && files[k].ref >= 1 :: files[k].typ == TYPE_FILE || files[k].typ == TYPE_DEV
  }

  // A file open for writing is not a directory; a working directory is one.
  ghost predicate Writers(files: seq<OpenFile>, f: seq<File>, t: seq<Inode>, cwds: multiset<nat>) {
    && (forall k | 0 <= k < |files| && files[k].ref >= 1 && files[k].typ == TYPE_FILE && files[k].writable ::
      files[k].inode < |t| && t[files[k].inode].no < |f| && f[t[files[k].inode].no].typ != TYPE_DIR)
    && (forall l: nat | l in cwds :: l < |t| && t[l].no < |f| && f[t[l].no].typ == TYPE_DIR)
  }

  // Inodes in use kept their slot and their type.
  ghost predicate TypesKept(f: seq<File>, t: seq<Inode>, f': seq<File>, t': seq<Inode>) {
    && |f'| == |f| && |t'| == |t|
    && forall l: nat | l < |t| && t[l].ref >= 1 ::
      t'[l].no == t[l].no && t[l].no < |f| && f'[t[l].no].typ == f[t[l].no].typ
  }

  lemma WritersKept(files: seq<OpenFile>, f: seq<File>, t: seq<Inode>, f': seq<File>, t': seq<Inode>,
      cwds: multiset<nat>)
    requires Accounted(files, t, cwds) && Writers(files, f, t, cwds) && TypesKept(f, t, f', t')
    ensures Writers(files, f', t', cwds)
  {
    forall k: nat | k < |files| && files[k].ref >= 1 && files[k].typ == TYPE_FILE && files[k].writable
      ensures files[k].inode < |t'| && t'[files[k].inode].no < |f'| && f'[t'[files[k].inode].no].typ != TYPE_DIR
    {
      hide Accounted;
      AccountedHold(files, t, cwds, k);
    }
  }

  lemma AccountedHold(files: seq<OpenFile>, t: seq<Inode>, cwds: multiset<nat>, k: nat)
    requires Accounted(files, t, cwds) && k < |files| && files[k].ref >= 1 && files[k].typ == TYPE_FILE
    ensures files[k].inode < |t| && t[files[k].inode].ref >= 1
  {
    HoldsUpdate(files, k, files[k]);
    assert files[k].inode in Hold(files[k]);
    assert files[k].inode in Holds(files);
  }

  // A reference was taken on slot j, and an open file now holds it.
  lemma AccountedOpen(files: seq<OpenFile>, files': seq<OpenFile>, t: seq<Inode>, t': seq<Inode>, cwds: multiset<nat>,
      k: nat, j: nat)
    requires Accounted(files, t, cwds) && RefsBy(t, t', multiset{j}) && j < |t'|
    requires k < |files| && files[k].ref == 0 && |files'| == |files| && files' == files[k := files'[k]]
    requires Hold(files'[k]) == multiset{j}
    ensures Accounted(files', t', cwds)
  {
    HoldsUpdate(files, k, files'[k]);
    assert Holds(files') == Holds(files) + multiset{j};
    forall l: nat | l < |t'| ensures t'[l].ref == Holds(files')[l] + cwds[l] {
      assert t'[l].ref == t[l].ref + multiset{j}[l];
    }
  }

  lemma AccountedSame(files: seq<OpenFile>, files': seq<OpenFile>, t: seq<Inode>, t': seq<Inode>, cwds: multiset<nat>)
    requires Accounted(files, t, cwds) && |t'| == |t| && Holds(files') == Holds(files)
    requires forall l: nat | l < |t| :: t'[l].ref == t[l].ref
    ensures Accounted(files', t', cwds)
  {}

  class FileTable {
    const fs: Fs
    const files: array<OpenFile>

    constructor (fs: Fs)
      requires fs.Valid()
      ensures this.fs == fs && fresh(files) && files.Length == TOTAL_FILE
      ensures Kinds(files[..]) && Holds(files[..]) == multiset{} && forall k | 0 <= k < TOTAL_FILE :: files[k].ref == 0
    {
      this.fs := fs;
      files := new OpenFile[TOTAL_FILE](_ => OpenFile(TYPE_NONE, 0, false, false, 0, 0, 0));
      new;
      NoHolds(files[..]);
    }

    ghost predicate Valid(cwds: multiset<nat>)
      reads this, files, fs, fs.disk, fs.disk.sectors, fs.disk.cache, fs.inodes
    {
      && files.Length == TOTAL_FILE && Kinds(files[..])
      && fs.Valid() && System(fs.F(), fs.inodes[..])
      && Writers(files[..], fs.F(), fs.inodes[..], cwds)
      && Accounted(files[..], fs.inodes[..], cwds)
    }

    // Nobody has a file open or stands anywhere.
    lemma Fresh()
      requires files.Length == TOTAL_FILE && Kinds(files[..]) && (forall k | 0 <= k < TOTAL_FILE :: files[k].ref == 0)
      requires fs.Valid() && System(fs.F(), fs.inodes[..]) && forall j | 0 <= j < INODE_NUM :: fs.inodes[j].ref == 0
      ensures Valid(multiset{})
    {
      hide Inodes.Fs.Valid, Inodes.Fs.Raw, Inodes.Fs.V, Inodes.Fs.F, FilesOf, ViewOf, System, Holds, Owned, SoundInodes,
        TableOk;
      fs.Sound();
      NoHolds(files[..]);
    }

    // init_proc and init_user_and_go: one more process stands in the root directory.
    method OpenRoot(ghost cwds: multiset<nat>) returns (r: Outcome<nat>)
      requires Valid(cwds)
      modifies fs.inodes, fs.disk.cache
      ensures r.Abort? <==>
        forall j | 0 <= j < INODE_NUM :: old(fs.inodes[j].ref) >= 1 && old(fs.inodes[j].no) != ROOT_INO
      ensures r.Done? ==> Valid(cwds + multiset{r.value}) && Now() == old(Now())
      ensures r.Done? ==> r.value < INODE_NUM && fs.inodes[r.value].no == ROOT_INO
      ensures r.Done? ==>
        forall j: nat | j < INODE_NUM && old(fs.inodes[j].ref) >= 1 && old(fs.inodes[j].no) == ROOT_INO :: j == r.value
    {
      hide Exhausted, Inodes.Fs.Valid, Inodes.Fs.Raw, Inodes.Fs.V, Inodes.Fs.F, FilesOf, ViewOf, System, Accounted,
        Holds, Hold, Owned, SoundInodes, TableOk, Deleted, Writers, TypesKept, Kinds, RefsBy;
      fs.Sound();
      LiveAllocated(fs);
      ghost var t, f := fs.inodes[..], fs.F();
      SystemRoot(f, t);
      RootIs(fs);
      r := fs.Iget(fs.sb.root);
      if r.Abort? { return; }
      fs.Sound();
      RefsNone(t);
      RefsOpened(t, t, fs.inodes[..], multiset{}, fs.V(), ROOT_INO, r.value);
      assert multiset{} + multiset{r.value} == multiset{r.value};
      SystemRefs(f, t, fs.inodes[..], multiset{r.value});
      CwdMoves(files[..], t, fs.inodes[..], cwds, r.value, r.value);
      TypesMore(f, t, fs.inodes[..], multiset{r.value});
      WritersKept(files[..], f, t, f, fs.inodes[..], cwds);
      WritersMore(files[..], f, fs.inodes[..], cwds, r.value);
      SlotUnique(fs, r.value);
      RefsStay(t, fs.inodes[..], multiset{r.value});
    }

    // All files of the system, as they are now.
    ghost function Now(): seq<File>
      reads fs, fs.disk, fs.disk.sectors
    {
      if fs.disk.sectors.Length == SECT_NUM && SoundInodes(fs.V()) then fs.F() else []
    }

    ghost predicate NoBlock()
      reads fs, fs.disk, fs.disk.sectors
    {
      fs.disk.sectors.Length == SECT_NUM && Full(fs.V())
    }

    lemma NowIs(cwds: multiset<nat>)
      requires Valid(cwds)
      ensures Now() == fs.F() && files.Length == TOTAL_FILE
    {}

    // A working directory is open and is a directory.
    lemma Stands(cwd: nat, cwds: multiset<nat>)
      requires Valid(cwds) && cwd in cwds
      ensures Ready(fs, cwd) && cwd < fs.inodes.Length
    {
      hide Inodes.Fs.Raw, Inodes.Fs.V, Inodes.Fs.F, FilesOf, ViewOf, System, Holds, Owned, SoundInodes, TableOk;
      fs.Sound();
      CwdLive(files[..], fs.inodes[..], cwds, cwd);
      CwdIsDir(files[..], fs.F(), fs.inodes[..], cwds, cwd);
    }

    method Falloc() returns (r: Option<nat>)
      requires files.Length == TOTAL_FILE
      modifies files
      ensures r.None? <==> forall k | 0 <= k < TOTAL_FILE :: old(files[k].ref) != 0
      ensures r.None? ==> files[..] == old(files[..])
      ensures r.Some? ==> r.value < TOTAL_FILE && old(files[r.value].ref) == 0
      ensures r.Some? ==> files[..] == old(files[..])[r.value := old(files[r.value]).(ref := 1, typ := TYPE_NONE)]
    {
      for i := 0 to TOTAL_FILE
        invariant files[..] == old(files[..])
        invariant forall k | 0 <= k < i :: files[k].ref != 0
      {
        if files[i].ref == 0 {
          files[i] := files[i].(ref := 1, typ := TYPE_NONE);
          return Some(i);
        }
      }
      return None;
    }

    // An entry that holds no inode.
    method Release(k: nat, ghost before: seq<OpenFile>)
      requires files.Length == TOTAL_FILE && k < TOTAL_FILE && files[k].ref == 1 && files[k].typ == TYPE_NONE
      requires |before| == TOTAL_FILE && before[k].ref == 0 && files[..] == before[k := files[k]]
      modifies files
      ensures files[..] == before[k := files[k]] && files[k] == old(files[k]).(ref := 0)
      ensures Holds(files[..]) == Holds(before)
    {
      files[k] := files[k].(ref := files[k].ref - 1);
      HoldsUpdate(before, k, files[k]);
    }

    method Fclose(k: nat, ghost cwds: multiset<nat>)
      requires Valid(cwds) && k < TOTAL_FILE && files[k].ref >= 1
      modifies files, fs`own, fs.inodes, fs.disk.cache, fs.disk.sectors
      ensures Valid(cwds)
      ensures files[..] == old(files[..])[k := old(files[k]).(ref := old(files[k].ref) - 1)]
      ensures fs.F() == FilesAfterClose(old(fs.F()), old(fs.inodes[..]), old(files[k]))
      ensures OnlyMarkedGo(old(Now()), Now(), old(Marked(fs.inodes[..])))
        && Marked(fs.inodes[..]) <= old(Marked(fs.inodes[..]))
    {
      hide Exhausted, Inodes.Fs.Valid, Inodes.Fs.Raw, Inodes.Fs.V, Inodes.Fs.F, FilesOf, ViewOf, System, Accounted,
        Holds, Hold, Owned, SoundInodes, TableOk, Deleted, Writers, Marked;
      if files[k].typ == TYPE_FILE { AccountedHold(files[..], fs.inodes[..], cwds, k); }
      ghost var before, t := files[..], fs.inodes[..];
      files[k] := files[k].(ref := files[k].ref - 1);
      if files[k].ref == 0 && files[k].typ == TYPE_FILE {
        var ip := files[k].inode;
        SlotUnique(fs, ip);
        fs.Mirror(ip);
        fs.Iclose(ip);
        MarkedClose(old(fs.F()), t, fs.inodes[..], before[k]);
        CloseSystem(old(fs.F()), t, fs.inodes[..], ip);
        AccountedClose(before, files[..], t, fs.inodes[..], cwds, k);
        fs.Sound();
        WritersClose(before, files[..], old(fs.F()), t, fs.F(), fs.inodes[..], cwds, k);
      } else {
        HoldCases(before[k], files[k]);
        HoldsSame(before, k, files[k]);
        AccountedSame(before, files[..], t, t, cwds);
        fs.Sound();
        WritersFewer(before, files[..], fs.F(), t, cwds);
      }
    }

    method Fdup(k: nat, ghost cwds: multiset<nat>)
      requires Valid(cwds) && k < TOTAL_FILE && files[k].ref >= 1
      modifies files
      ensures Valid(cwds)
      ensures files[..] == old(files[..])[k := old(files[k]).(ref := old(files[k].ref) + 1)]
    {
      hide Exhausted, Inodes.Fs.Valid, Inodes.Fs.Raw, Inodes.Fs.V, Inodes.Fs.F, FilesOf, ViewOf, System, Accounted,
        Holds, Hold, Owned, SoundInodes, TableOk, Deleted, Writers;
      ghost var before := files[..];
      files[k] := files[k].(ref := files[k].ref + 1);
      HoldCases(before[k], files[k]);
      HoldsSame(before, k, files[k]);
      AccountedSame(before, files[..], fs.inodes[..], fs.inodes[..], cwds);
      fs.Sound();
      WritersFewer(before, files[..], fs.F(), fs.inodes[..], cwds);
    }

    // read(): of a regular file or directory what iread gives at the offset, which moves on.
    method Fread(k: nat, size: u32, ghost cwds: multiset<nat>) returns (r: Outcome<Reading>)
      requires Valid(cwds) && k < TOTAL_FILE && files[k].ref >= 1
      modifies files, fs`own, fs.inodes, fs.disk.cache, fs.disk.sectors
      ensures r.Abort? ==> old(files[k]).typ == TYPE_FILE && (NoBlock() || old(files[k]).offset + size >= MAX_FILE)
      ensures r.Done? ==> Valid(cwds) && fs.F() == old(fs.F())
      ensures r.Done? ==> Reads(old(fs.F()), old(fs.inodes[..]), old(files[..]), files[..], k, size, r.value)
    {
      hide Exhausted, Inodes.Fs.Valid, Inodes.Fs.Raw, Inodes.Fs.V, Inodes.Fs.F, FilesOf, ViewOf, System, Accounted,
        Holds, Hold, Owned, SoundInodes, TableOk, Deleted, Writers, SameRefs, Grew, Full, Window;
      if !files[k].readable { return Done(NotRead); }
      if files[k].typ == TYPE_DEV { return Done(FromDevice(files[k].dev)); }
      AccountedHold(files[..], fs.inodes[..], cwds, k);
      var ip := files[k].inode;
      fs.Sound();
      fs.Mirror(ip);
      ghost var before, t, f := files[..], fs.inodes[..], fs.F();
      LiveAllocated(fs);
      var got := fs.Iread(ip, files[k].offset, size);
      LiveStays(t, fs.inodes[..], ip);
      if got.Abort? {
        WindowShort(f[fs.inodes[ip].no].data, files[k].offset, size);
        return Abort;
      }
      fs.Sound();
      files[k] := files[k].(offset := files[k].offset + |got.value|);
      HoldCases(before[k], files[k]);
      HoldsSame(before, k, files[k]);
      KeptBySameRefs(before, files[..], f, t, f, fs.inodes[..], cwds);
      return Done(Read(got.value));
    }

    // write(): on a regular file -1 past the end, otherwise the buffer is laid over the contents.
    method Fwrite(k: nat, buf: seq<byte>, ghost cwds: multiset<nat>) returns (r: Outcome<Writing>)
      requires Valid(cwds) && k < TOTAL_FILE && files[k].ref >= 1
      modifies files, fs`own, fs.inodes, fs.disk.cache, fs.disk.sectors
      ensures r.Abort? ==> old(files[k]).typ == TYPE_FILE && (NoBlock() || old(files[k]).offset + |buf| > MAX_FILE)
      ensures r.Done? ==> Valid(cwds)
      ensures r.Done? ==> Writes(old(fs.F()), fs.F(), old(fs.inodes[..]), old(files[..]), files[..], k, buf, r.value)
    {
      hide Exhausted, Inodes.Fs.Valid, Inodes.Fs.Raw, Inodes.Fs.V, Inodes.Fs.F, FilesOf, ViewOf, System, Accounted,
        Holds, Hold, Owned, SoundInodes, TableOk, Deleted, Writers, SameRefs, Grew, Full, Overlay, FileWritten;
      fs.Sound();
      if !files[k].writable { return Done(Written(-1)); }
      if files[k].typ == TYPE_DEV { return Done(ToDevice(files[k].dev)); }
      AccountedHold(files[..], fs.inodes[..], cwds, k);
      var ip := files[k].inode;
      fs.Mirror(ip);
      SizeIsData(fs, ip);
      ghost var before, t, f, ino := files[..], fs.inodes[..], fs.F(), fs.inodes[ip].no;
      NotDir(before, f, t, k, cwds);
      LiveAllocated(fs);
      var w := fs.Iwrite(ip, files[k].offset, buf);
      if w.Abort? { return Abort; }
      fs.Sound();
      LiveStays(t, fs.inodes[..], ip);
      if w.value != -1 {
        files[k] := files[k].(offset := files[k].offset + w.value);
        HoldCases(before[k], files[k]);
        HoldsSame(before, k, files[k]);
        DataSystem(f, t, ino, fs.F()[ino].data);
      }
      KeptBySameRefs(before, files[..], f, t, fs.F(), fs.inodes[..], cwds);
      return Done(Written(w.value));
    }

    // lseek: the offset may go anywhere, also past the end; -1 (as an unsigned number) for a device.
    method Fseek(k: nat, off: u32, whence: Whence, ghost cwds: multiset<nat>) returns (r: u32)
      requires Valid(cwds) && k < TOTAL_FILE && files[k].ref >= 1
      modifies files
      ensures Valid(cwds) && Seeks(fs.F(), fs.inodes[..], old(files[..]), files[..], k, off, whence, r)
    {
      hide Exhausted, Inodes.Fs.Valid, Inodes.Fs.Raw, Inodes.Fs.V, Inodes.Fs.F, FilesOf, ViewOf, System, Accounted,
        Holds, Hold, Owned, SoundInodes, TableOk, Deleted, Writers, SameRefs, Grew, Full;
      fs.Sound();
      if files[k].typ == TYPE_DEV { return 0xFFFF_FFFF; }
      AccountedHold(files[..], fs.inodes[..], cwds, k);
      SizeIsData(fs, files[k].inode);
      LiveAllocated(fs);
      ghost var before := files[..];
      r := match whence
        case Set => off
        case Cur => (files[k].offset + off) % 0x1_0000_0000
        case End => (fs.Size(files[k].inode) + off) % 0x1_0000_0000;
      files[k] := files[k].(offset := r);
      HoldCases(before[k], files[k]);
      HoldsSame(before, k, files[k]);
      AccountedSame(before, files[..], fs.inodes[..], fs.inodes[..], cwds);
      WritersFewer(before, files[..], fs.F(), fs.inodes[..], cwds);
    }

    method Fopen(path: seq<byte>, mode: Mode, cwd: nat, ghost cwds: multiset<nat>) returns (r: Outcome<Option<nat>>)
      requires Valid(cwds) && Ready(fs, cwd) && 0 !in path
      modifies files, fs`own, fs.inodes, fs.disk.cache, fs.disk.sectors
      ensures r.Abort? ==> Exhausted(fs, old(fs.F())) || exists i: nat :: OddAt(old(fs.F()), i)
      ensures r.Done? ==> Valid(cwds)
      ensures r.Done? && r.value.None? ==>
        forall k | 0 <= k < TOTAL_FILE :: files[k] == old(files[k]) || old(files[k].ref) == files[k].ref == 0
      ensures r.Done? && r.value.Some? ==> TableEntry(old(files[..]), files[..], r.value.value, mode)
      ensures r.Done? ==> if AllTaken(old(files[..])) then r.value.None? && fs.F() == old(fs.F())
        else Opening(old(fs.F()), fs.F(), path, old(fs.inodes[cwd].no), mode, fs.inodes[..], FileAt(files[..], r.value))
    {
      hide Exhausted, Inodes.Fs.Valid, Inodes.Fs.Raw, Inodes.Fs.V, Inodes.Fs.F, FilesOf, ViewOf, System, Accounted,
        Holds, Hold, Owned, SoundInodes, TableOk, Deleted, Writers, OpenedPath, Comps, SameRefs, RefsBy, TypesKept,
        TableEntry, Granted;
      fs.Sound();
      ghost var before, t0, f0 := files[..], fs.inodes[..], fs.F();
      LiveAllocated(fs);
      var fp := Falloc();
      if fp.None? { return Done(None); }
      var k := fp.value;
      var openType := TypeFor(mode);
      var o := Iopen(fs, path, openType, cwd);
      if o.Abort? { return Abort; }
      fs.Sound();
      if o.value.None? {
        Release(k, before);
        OpenedTypes(f0, fs.F(), t0, fs.inodes[..], path, t0[cwd].no, openType, 0, multiset{});
        Rebalance(before, files[..], t0, fs.inodes[..], f0, fs.F(), cwds, k);
        OpeningIs(f0, fs.F(), fs.F(), path, t0[cwd].no, mode, fs.inodes[..], 0, None);
        return Done(None);
      }
      var ip := o.value.value;
      fs.Mirror(ip);
      ghost var f1, ino := fs.F(), fs.inodes[ip].no;
      OpenedTypes(f0, fs.F(), t0, fs.inodes[..], path, t0[cwd].no, openType, fs.inodes[ip].no, multiset{ip});
      r := Attach(k, ip, mode, before, t0, f0, cwds);
      if r.Abort? {
        OddBefore(f0, f1, path, t0[cwd].no, openType, ino);
      } else {
        fs.Sound();
        OpeningIs(f0, f1, fs.F(), path, t0[cwd].no, mode, fs.inodes[..], ino, FileAt(files[..], r.value));
      }
    }

    // The rest of fopen: an inode is open in slot ip, entry k is reserved.
    method Attach(k: nat, ip: nat, mode: Mode, ghost before: seq<OpenFile>, ghost t0: seq<Inode>, ghost f0: seq<File>,
        ghost cwds: multiset<nat>)
      returns (r: Outcome<Option<nat>>)
      requires files.Length == TOTAL_FILE && Kinds(before) && |before| == TOTAL_FILE && k < TOTAL_FILE
        && before[k].ref == 0
      requires files[..] == before[k := files[k]] && files[k].ref == 1 && files[k].typ == TYPE_NONE
      requires fs.Valid() && System(fs.F(), fs.inodes[..]) && fs.Live(ip) && !fs.inodes[ip].del
      requires Accounted(before, t0, cwds) && RefsBy(t0, fs.inodes[..], multiset{ip}) && Writers(before, f0, t0, cwds)
      requires TypesKept(f0, t0, fs.F(), fs.inodes[..])
      modifies files, fs`own, fs.inodes, fs.disk.cache, fs.disk.sectors
      ensures r.Abort? ==> OddAt(old(fs.F()), old(fs.inodes[ip].no))
      ensures r.Done? ==> Valid(cwds)
      ensures r.Done? && r.value.None? ==> files[..] == before[k := files[k]] && files[k].ref == 0
      ensures r.Done? && r.value.Some? ==> r.value.value == k && TableEntry(before, files[..], k, mode)
      ensures r.Done? ==> Granted(old(fs.F()), fs.F(), fs.inodes[..], mode, old(fs.inodes[ip].no),
        FileAt(files[..], r.value))
    {
      hide Exhausted, Inodes.Fs.Valid, Inodes.Fs.Raw, Inodes.Fs.V, Inodes.Fs.F, FilesOf, ViewOf, System, Accounted,
        Holds, Hold, Owned, SoundInodes, TableOk, Deleted, Writers, SameRefs, RefsBy, TypesKept;
      fs.Mirror(ip);
      SizeIsData(fs, ip);
      ghost var t1, f1 := fs.inodes[..], fs.F();
      var typ := fs.inodes[ip].dinode.typ;
      if typ == TYPE_FILE || typ == TYPE_DIR {
        if (typ != TYPE_DIR && mode.dir) || (typ == TYPE_DIR && (mode.wronly || mode.rdwr || mode.trunc)) {
          Release(k, before);
          DropRef(ip, before, t0, f0, cwds, k);
          return Done(None);
        }
        if mode.trunc {
          fs.Itrunc(ip);
          fs.Sound();
          LiveStays(t1, fs.inodes[..], ip);
          DataSystem(f1, t1, t1[ip].no, []);
          SystemSame(fs.F(), t1, fs.inodes[..]);
          RefsKept(t0, t1, fs.inodes[..], multiset{ip});
          TypesData(f0, t0, f1, t1, t1[ip].no, [], fs.inodes[..]);
        }
        files[k] := OpenFile(TYPE_FILE, 1, !mode.wronly, mode.wronly || mode.rdwr, ip, 0, files[k].dev);
        HoldOne(files[k]);
        AccountedOpen(before, files[..], t0, fs.inodes[..], cwds, k, ip);
        WritersOpen(before, files[..], t0, fs.inodes[..], f0, fs.F(), cwds, k);
        return Done(Some(k));
      } else if typ == TYPE_DEV {
        var dev := fs.inodes[ip].dinode.device;
        files[k] := files[k].(typ := TYPE_DEV, dev := dev, readable := !mode.wronly, writable := mode.wronly
          || mode.rdwr);
        DropRef(ip, before, t0, f0, cwds, k);
        return Done(Some(k));
      }
      return Abort;
    }

    // chdir: -1 unless the path is a directory; otherwise the working directory moves there.
    method Chdir(path: seq<byte>, cwd: nat, ghost cwds: multiset<nat>) returns (r: Outcome<Option<nat>>)
      requires Valid(cwds) && Ready(fs, cwd) && cwd in cwds && 0 !in path
      modifies fs`own, fs.inodes, fs.disk.cache, fs.disk.sectors
      ensures r.Abort? ==> Exhausted(fs, old(fs.F()))
      ensures r.Done? ==> fs.Valid() && fs.F() == old(fs.F())
      ensures r.Done? && r.value.None? ==> Valid(cwds)
      ensures r.Done? && r.value.Some? ==>
        Valid(cwds - multiset{cwd} + multiset{r.value.value}) && Ready(fs, r.value.value)
      ensures r.Done? && r.value.Some? ==> r.value.value < fs.inodes.Length
      ensures r.Done? ==> var ino := Target(old(fs.F()), path, old(fs.inodes[cwd].no));
        (r.value.Some? <==> IsDirectory(old(fs.F()), ino)) && (r.value.Some? ==> fs.inodes[r.value.value].no == ino)
    {
      hide Target, Exhausted, Inodes.Fs.Valid, Inodes.Fs.Raw, Inodes.Fs.V, Inodes.Fs.F, FilesOf, ViewOf, System,
        Accounted, Holds, Hold, Owned, SoundInodes, TableOk, Deleted, Writers, OpenedPath, Comps, SameRefs, RefsBy,
        TypesKept;
      fs.Sound();
      ghost var t0, f0 := fs.inodes[..], fs.F();
      LiveAllocated(fs);
      var o := Iopen(fs, path, TYPE_NONE, cwd);
      if o.Abort? { return Abort; }
      fs.Sound();
      if o.value.None? {
        OpenedTypes(f0, fs.F(), t0, fs.inodes[..], path, t0[cwd].no, TYPE_NONE, 0, multiset{});
        OpenChangesNothing(f0, fs.F(), path, t0[cwd].no, 0);
        OpenIsResolve(f0, fs.F(), path, t0[cwd].no, 0);
        Settle(files[..], t0, fs.inodes[..], f0, fs.F(), cwds);
        return Done(None);
      }
      var ip := o.value.value;
      fs.Mirror(ip);
      SizeIsData(fs, ip);
      OpenIsResolve(f0, fs.F(), path, t0[cwd].no, fs.inodes[ip].no);
      OpenedTypes(f0, fs.F(), t0, fs.inodes[..], path, t0[cwd].no, TYPE_NONE, fs.inodes[ip].no, multiset{ip});
      OpenChangesNothing(f0, fs.F(), path, t0[cwd].no, fs.inodes[ip].no);
      ghost var t1 := fs.inodes[..];
      if fs.inodes[ip].dinode.typ != TYPE_DIR {
        NotTaken(ip, t0, f0, cwds);
        return Done(None);
      }
      RefsLive(t0, t1, multiset{ip}, cwd);
      DirNotUnlinked(fs.F(), t1, cwd);
      CwdMoves(files[..], t0, t1, cwds, cwd, ip);
      WritersKept(files[..], f0, t0, fs.F(), t1, cwds);
      CloseMoved(ip, cwd, cwds);
      return Done(Some(ip));
    }

    // A forked child stands in the same directory.
    method DupCwd(cwd: nat, ghost cwds: multiset<nat>)
      requires Valid(cwds) && cwd in cwds
      modifies fs.inodes
      ensures Valid(cwds + multiset{cwd}) && Now() == old(Now())
      ensures Marked(fs.inodes[..]) == old(Marked(fs.inodes[..]))
    {
      hide Exhausted, Inodes.Fs.Valid, Inodes.Fs.Raw, Inodes.Fs.V, Inodes.Fs.F, FilesOf, ViewOf, System, Accounted,
        Holds, Hold, Owned, SoundInodes, TableOk, Deleted, Writers, TypesKept, Kinds, RefsBy, Marked;
      fs.Sound();
      LiveAllocated(fs);
      ghost var t, f := fs.inodes[..], fs.F();
      CwdLive(files[..], t, cwds, cwd);
      fs.Idup(cwd);
      fs.Sound();
      DupRefs(t, fs.inodes[..], cwd);
      SystemRefs(f, t, fs.inodes[..], multiset{cwd});
      CwdMoves(files[..], t, fs.inodes[..], cwds, cwd, cwd);
      TypesMore(f, t, fs.inodes[..], multiset{cwd});
      WritersKept(files[..], f, t, f, fs.inodes[..], cwds);
      CwdIsDir(files[..], f, fs.inodes[..], cwds, cwd);
      WritersMore(files[..], f, fs.inodes[..], cwds, cwd);
    }

    // An exiting process leaves its directory.
    method CloseCwd(cwd: nat, ghost cwds: multiset<nat>)
      requires Valid(cwds) && cwd in cwds
      modifies fs`own, fs.inodes, fs.disk.cache, fs.disk.sectors
      ensures Valid(cwds - multiset{cwd}) && Now() == old(Now())
      ensures Marked(fs.inodes[..]) == old(Marked(fs.inodes[..]))
    {
      hide Exhausted, Inodes.Fs.Valid, Inodes.Fs.Raw, Inodes.Fs.V, Inodes.Fs.F, FilesOf, ViewOf, System, Accounted,
        Holds, Hold, Owned, SoundInodes, TableOk, Deleted, Writers, TypesKept, Kinds, Marked;
      fs.Sound();
      LiveAllocated(fs);
      ghost var t, f := fs.inodes[..], fs.F();
      CwdLive(files[..], t, cwds, cwd);
      CwdIsDir(files[..], f, t, cwds, cwd);
      DirNotUnlinked(f, t, cwd);
      fs.Iclose(cwd);
      fs.Sound();
      assert OneLess(t, fs.inodes[..], cwd);
      MarkedLess(t, fs.inodes[..], cwd);
      hide OneLess;
      FewerRefs(f, t, fs.inodes[..], cwd);
      TypesOneLess(f, t, fs.inodes[..], cwd);
      WritersKept(files[..], f, t, f, fs.inodes[..], cwds);
      WritersLess(files[..], f, fs.inodes[..], cwds, cwds - multiset{cwd});
      CwdLess(files[..], t, fs.inodes[..], cwds, cwd);
    }

    // iclose on a slot opened a moment ago that nothing is to hold
    method NotTaken(ip: nat, ghost t0: seq<Inode>, ghost f0: seq<File>, ghost cwds: multiset<nat>)
      requires files.Length == TOTAL_FILE && Kinds(files[..])
      requires fs.Valid() && System(fs.F(), fs.inodes[..]) && fs.Live(ip) && !fs.inodes[ip].del
      requires Accounted(files[..], t0, cwds) && RefsBy(t0, fs.inodes[..], multiset{ip})
        && Writers(files[..], f0, t0, cwds)
      requires TypesKept(f0, t0, fs.F(), fs.inodes[..])
      modifies fs`own, fs.inodes, fs.disk.cache, fs.disk.sectors
      ensures Valid(cwds) && fs.F() == old(fs.F()) && TypesKept(f0, t0, fs.F(), fs.inodes[..])
    {
      hide Exhausted, Inodes.Fs.Valid, Inodes.Fs.Raw, Inodes.Fs.V, Inodes.Fs.F, FilesOf, ViewOf, System, Accounted,
        Holds, Hold, Owned, SoundInodes, TableOk, Deleted, Writers, RefsBy, TypesKept, Kinds, OneLess;
      fs.Sound();
      ghost var t1 := fs.inodes[..];
      ClosePlain(fs, ip, t0, multiset{ip});
      assert multiset{ip} - multiset{ip} == multiset{};
      fs.Sound();
      FewerRefs(fs.F(), t1, fs.inodes[..], ip);
      TypesAfterClose(f0, t0, fs.F(), t1, fs.inodes[..], ip);
      Settle(files[..], t0, fs.inodes[..], f0, fs.F(), cwds);
    }

    // The old directory is left once the new one is open.
    method CloseMoved(ip: nat, cwd: nat, ghost cwds: multiset<nat>)
      requires files.Length == TOTAL_FILE && Kinds(files[..]) && cwd in cwds
      requires fs.Valid() && System(fs.F(), fs.inodes[..]) && Writers(files[..], fs.F(), fs.inodes[..], cwds)
      requires fs.Live(ip) && fs.Live(cwd) && !fs.inodes[cwd].del && fs.F()[fs.inodes[ip].no].typ == TYPE_DIR
      requires Accounted(files[..], fs.inodes[..], cwds + multiset{ip})
      modifies fs`own, fs.inodes, fs.disk.cache, fs.disk.sectors
      ensures Valid(cwds - multiset{cwd} + multiset{ip}) && Ready(fs, ip)
      ensures fs.F() == old(fs.F()) && fs.inodes[ip].no == old(fs.inodes[ip].no)
    {
      hide Exhausted, Inodes.Fs.Valid, Inodes.Fs.Raw, Inodes.Fs.V, Inodes.Fs.F, FilesOf, ViewOf, System, Accounted,
        Holds, Hold, Owned, SoundInodes, TableOk, Deleted, Writers, TypesKept, Kinds;
      fs.Sound();
      LiveAllocated(fs);
      ghost var f, t1 := fs.F(), fs.inodes[..];
      fs.Iclose(cwd);
      fs.Sound();
      assert OneLess(t1, fs.inodes[..], cwd);
      OneLessNo(t1, fs.inodes[..], cwd, ip);
      hide OneLess;
      FewerRefs(f, t1, fs.inodes[..], cwd);
      TypesOneLess(f, t1, fs.inodes[..], cwd);
      WritersMore(files[..], f, t1, cwds, ip);
      WritersKept(files[..], f, t1, f, fs.inodes[..], cwds + multiset{ip});
      WritersLess(files[..], f, fs.inodes[..], cwds + multiset{ip}, cwds - multiset{cwd} + multiset{ip});
      CwdGone(files[..], t1, fs.inodes[..], cwds, cwd, ip);
      CwdLive(files[..], fs.inodes[..], cwds - multiset{cwd} + multiset{ip}, ip);
    }

    method Unlink(path: seq<byte>, cwd: nat, ghost cwds: multiset<nat>) returns (r: Outcome<int>, ghost j: int)
      requires Valid(cwds) && Ready(fs, cwd) && 0 !in path
      modifies fs`own, fs.inodes, fs.disk.cache, fs.disk.sectors
      ensures r.Abort? ==> Exhausted(fs, old(fs.F()))
      ensures r.Done? ==> fs.Valid()
      ensures r.Done? ==> r.value == if Refuses(old(fs.F()), path, old(fs.inodes[cwd].no)) then -1 else 0
      ensures r == Done(-1) ==> Valid(cwds) && fs.F() == old(fs.F())
      ensures r == Done(0) ==>
        Unlinks(old(fs.F()), fs.F(), old(fs.inodes[..]), fs.inodes[..], path, old(fs.inodes[cwd].no), j)
      ensures r == Done(0) ==>
        (Valid(cwds) <==> !OpenDirNamed(old(fs.F()), old(fs.inodes[..]), path, old(fs.inodes[cwd].no)))
    {
      hide Exhausted, Inodes.Fs.Valid, Inodes.Fs.Raw, Inodes.Fs.V, Inodes.Fs.F, FilesOf, ViewOf, System, Accounted,
        Holds, Hold, Owned, SoundInodes, TableOk, Deleted, Writers, Comps, SameRefs, RefsBy, TypesKept, Unlinks,
        MarkedBy, Refuses, OpenDirNamed;
      fs.Sound();
      ghost var t0, f0 := fs.inodes[..], fs.F();
      LiveAllocated(fs);
      r, j := Iremove(fs, path, cwd);
      if r.Abort? { return; }
      fs.Sound();
      if r.value == -1 {
        TypesSame(f0, t0, fs.inodes[..]);
        Settle(files[..], t0, fs.inodes[..], f0, fs.F(), cwds);
      } else {
        UnlinkSystem(f0, fs.F(), t0, fs.inodes[..], path, t0[cwd].no, j);
        OpenDirMeans(f0, fs.F(), t0, fs.inodes[..], path, t0[cwd].no, j);
        UnlinkBooks(files[..], f0, fs.F(), t0, fs.inodes[..], path, t0[cwd].no, j, cwds);
      }
    }

    // iclose on a slot opened a moment ago: the books are as before.
    method DropRef(ip: nat, ghost before: seq<OpenFile>, ghost t0: seq<Inode>, ghost f0: seq<File>,
        ghost cwds: multiset<nat>, ghost k: nat)
      requires files.Length == TOTAL_FILE && |before| == TOTAL_FILE && k < TOTAL_FILE && before[k].ref == 0
      requires files[..] == before[k := files[k]] && files[k].typ != TYPE_FILE
      requires fs.Valid() && System(fs.F(), fs.inodes[..]) && fs.Live(ip) && !fs.inodes[ip].del
      requires Accounted(before, t0, cwds) && RefsBy(t0, fs.inodes[..], multiset{ip}) && Writers(before, f0, t0, cwds)
      requires TypesKept(f0, t0, fs.F(), fs.inodes[..])
      modifies fs`own, fs.inodes, fs.disk.cache, fs.disk.sectors
      ensures fs.Valid() && fs.F() == old(fs.F()) && System(fs.F(), fs.inodes[..])
      ensures Accounted(files[..], fs.inodes[..], cwds) && Writers(files[..], fs.F(), fs.inodes[..], cwds)
    {
      hide Exhausted, Inodes.Fs.Valid, Inodes.Fs.Raw, Inodes.Fs.V, Inodes.Fs.F, FilesOf, ViewOf, System, Accounted,
        Holds, Hold, Owned, SoundInodes, TableOk, Deleted, Writers, RefsBy, TypesKept;
      fs.Sound();
      ghost var t1 := fs.inodes[..];
      ClosePlain(fs, ip, t0, multiset{ip});
      assert multiset{ip} - multiset{ip} == multiset{};
      fs.Sound();
      FewerRefs(fs.F(), t1, fs.inodes[..], ip);
      TypesAfterClose(f0, t0, fs.F(), t1, fs.inodes[..], ip);
      Rebalance(before, files[..], t0, fs.inodes[..], f0, fs.F(), cwds, k);
    }
  }

  // The bytes of the inode an open file is on.
  function DataOf(f: seq<File>, t: seq<Inode>, o: OpenFile): seq<byte> {
    if o.inode < |t| && t[o.inode].no < |f| then f[t[o.inode].no].data else []
  }

  // buf now lies over those bytes at the file's offset; no other file has changed.
  ghost predicate Overlaid(f: seq<File>, f': seq<File>, t: seq<Inode>, o: OpenFile, buf: seq<byte>) {
    && o.inode < |t| && t[o.inode].no < |f| && o.offset <= |DataOf(f, t, o)|
    && f' == f[t[o.inode].no := f[t[o.inode].no].(data := Overlay(DataOf(f, t, o), o.offset, buf))]
  }

  // Entry k has moved on by n bytes; nothing else in the table has changed.
  ghost predicate OffsetMoved(files: seq<OpenFile>, files': seq<OpenFile>, k: nat, n: nat) {
    && k < |files| && files[k].offset + n < 0x1_0000_0000
    && files' == files[k := files[k].(offset := files[k].offset + n)]
  }

  // What read() of open file k returns.
  ghost predicate Reads(f: seq<File>, t: seq<Inode>, files: seq<OpenFile>, files': seq<OpenFile>, k: nat, size: nat,
      r: Reading)
  {
    k < |files|
    && if !files[k].readable then r == NotRead && files' == files
    else if files[k].typ == TYPE_DEV then r == FromDevice(files[k].dev) && files' == files
    else r == Read(Window(DataOf(f, t, files[k]), files[k].offset, size)) && OffsetMoved(files, files', k, |r.data|)
  }

  // What write() on open file k does.
  ghost predicate Writes(f: seq<File>, f': seq<File>, t: seq<Inode>, files: seq<OpenFile>, files': seq<OpenFile>,
      k: nat,
      buf: seq<byte>, r: Writing)
  {
    k < |files|
    && if !files[k].writable then r == Written(-1) && f' == f && files' == files
    else if files[k].typ == TYPE_DEV then r == ToDevice(files[k].dev) && f' == f && files' == files
    else if files[k].offset > |DataOf(f, t, files[k])| then r == Written(-1) && f' == f && files' == files
    else r == Written(|buf|) && Overlaid(f, f', t, files[k], buf) && OffsetMoved(files, files', k, |buf|)
  }

  function SeekTo(f: seq<File>, t: seq<Inode>, o: OpenFile, off: u32, whence: Whence): u32 {
    if o.typ == TYPE_DEV then 0xFFFF_FFFF
    else match whence
      case Set => off
      case Cur => (o.offset + off) % 0x1_0000_0000
      case End => (|DataOf(f, t, o)| + off) % 0x1_0000_0000
  }

  // What lseek() on open file k does.
  ghost predicate Seeks(f: seq<File>, t: seq<Inode>, files: seq<OpenFile>, files': seq<OpenFile>, k: nat, off: u32,
      whence: Whence, r: u32)
  {
    && k < |files| && r == SeekTo(f, t, files[k], off, whence)
    && files' == if files[k].typ == TYPE_DEV then files else files[k := files[k].(offset := r)]
  }

  // Past the end of the file there is nothing to read, and nothing can be written.
  lemma PastTheEnd(f: seq<File>, f': seq<File>, t: seq<Inode>, files: seq<OpenFile>, files': seq<OpenFile>, k: nat,
      off: u32, size: nat, buf: seq<byte>, r: Reading, w: Writing)
    requires k < |files| && files[k].typ == TYPE_FILE && |DataOf(f, t, files[k])| < off
    ensures var moved := files[k := files[k].(offset := SeekTo(f, t, files[k], off, Set))];
      && (Reads(f, t, moved, files', k, size, r) ==> r == NotRead || r == Read([]))
      && (Writes(f, f', t, moved, files', k, buf, w) ==> w == Written(-1) && f' == f && files' == moved)
  {}

  predicate IsDirectory(f: seq<File>, i: nat) { 0 < i < |f| && f[i].typ == TYPE_DIR }

  function FileAt(files: seq<OpenFile>, k: Option<nat>): Option<OpenFile> {
    if k.Some? && k.value < |files| then Some(files[k.value]) else None
  }

  predicate AllTaken(files: seq<OpenFile>) {
    forall k | 0 <= k < |files| :: files[k].ref != 0
  }

  // An inode of a type that open does not know.
  predicate OddAt(f: seq<File>, i: nat) {
    i < |f| && f[i].typ !in {TYPE_NONE, TYPE_FILE, TYPE_DIR, TYPE_DEV}
  }

  lemma OddBefore(f: seq<File>, f1: seq<File>, path: seq<byte>, cwd: nat, typ: u32, ino: nat)
    requires |f| == INUM && OpenedPath(f, f1, path, cwd, typ, ino) && OddAt(f1, ino)
      && typ in {TYPE_NONE, TYPE_FILE, TYPE_DIR}
    ensures OddAt(f, ino)
  {}

  // What a missing name is created as.
  function TypeFor(mode: Mode): u32 {
    if mode.create then (if mode.dir then TYPE_DIR else TYPE_FILE) else TYPE_NONE
  }

  // Opening inode ino of f with this mode: refused, or an entry on it, emptied if the mode says so.
  ghost predicate Granted(f: seq<File>, f': seq<File>, t': seq<Inode>, mode: Mode, ino: nat, got: Option<OpenFile>) {
    && ino < |f|
    && var typ := f[ino].typ;
    if typ == TYPE_FILE || typ == TYPE_DIR then
      if (typ != TYPE_DIR && mode.dir) || (typ == TYPE_DIR && (mode.wronly || mode.rdwr || mode.trunc)) then
        got.None? && f' == f
      else
        && got.Some? && f' == (if mode.trunc then f[ino := f[ino].(data := [])] else f)
        && got.value.typ == TYPE_FILE && got.value.inode < |t'| && t'[got.value.inode].no == ino
          && t'[got.value.inode].ref >= 1
    else typ == TYPE_DEV && got.Some? && f' == f && got.value.typ == TYPE_DEV && got.value.dev == f[ino].device
  }

  // open(path, mode) as a whole: the path is resolved, its last name perhaps created, and the inode opened.
  ghost predicate Opening(f: seq<File>, f': seq<File>, path: seq<byte>, cwd: nat, mode: Mode, t': seq<Inode>,
      got: Option<OpenFile>)
    requires |f| == INUM
  {
    exists f1: seq<File>, ino: nat :: OpenedPath(f, f1, path, cwd, TypeFor(mode), ino)
      && if ino == 0 then got.None? && f' == f1 else Granted(f1, f', t', mode, ino, got)
  }

  lemma OpeningIs(f: seq<File>, f1: seq<File>, f': seq<File>, path: seq<byte>, cwd: nat, mode: Mode, t': seq<Inode>,
      ino: nat, got: Option<OpenFile>)
    requires |f| == INUM && OpenedPath(f, f1, path, cwd, TypeFor(mode), ino)
    requires if ino == 0 then got.None? && f' == f1 else Granted(f1, f', t', mode, ino, got)
    ensures Opening(f, f', path, cwd, mode, t', got)
  {
    hide OpenedPath, Granted;
  }

  // Entry k of the table is now an open file with the access the mode asks for.
  ghost predicate TableEntry(before: seq<OpenFile>, after: seq<OpenFile>, k: nat, mode: Mode) {
    && |after| == |before| && k < |before| && before[k].ref == 0 && after == before[k := after[k]] && after[k].ref == 1
    && after[k].readable == !mode.wronly && after[k].writable == (mode.wronly || mode.rdwr)
    && (after[k].typ == TYPE_FILE ==> after[k].offset == 0)
  }

  lemma SystemSame(f: seq<File>, t: seq<Inode>, t': seq<Inode>)
    requires System(f, t) && SameRefs(t, t')
    ensures System(f, t')
  {
    RefsNone(t);
    RefsKept(t, t, t', multiset{});
    SystemRefs(f, t, t', multiset{});
  }

  lemma OpenChangesNothing(f: seq<File>, f': seq<File>, path: seq<byte>, cwd: nat, ino: nat)
    requires |f| == INUM && OpenedPath(f, f', path, cwd, TYPE_NONE, ino)
    ensures f' == f
  {
    hide Comps, LookupIno, ParentOf;
  }

  lemma Settle(files: seq<OpenFile>, t: seq<Inode>, t': seq<Inode>, f: seq<File>, f': seq<File>, cwds: multiset<nat>)
    requires Accounted(files, t, cwds) && Writers(files, f, t, cwds) && RefsBy(t, t', multiset{})
      && TypesKept(f, t, f', t')
    ensures Accounted(files, t', cwds) && Writers(files, f', t', cwds)
  {
    WritersKept(files, f, t, f', t', cwds);
  }

  lemma TypesSame(f: seq<File>, t: seq<Inode>, t': seq<Inode>)
    requires RefsBy(t, t', multiset{}) && forall l: nat | l < |t| && t[l].ref >= 1 :: t[l].no < |f|
    ensures TypesKept(f, t, f, t')
  {}

  lemma TypesOneLess(f: seq<File>, t: seq<Inode>, t': seq<Inode>, ip: nat)
    requires OneLess(t, t', ip) && forall l: nat | l < |t| && t[l].ref >= 1 :: t[l].no < |f|
    ensures TypesKept(f, t, f, t')
  {}

  lemma OneLessNo(t: seq<Inode>, t': seq<Inode>, ip: nat, j: nat)
    requires OneLess(t, t', ip) && j < |t|
    ensures j < |t'| && t'[j].no == t[j].no
  {}

  lemma CwdLive(files: seq<OpenFile>, t: seq<Inode>, cwds: multiset<nat>, ip: nat)
    requires Accounted(files, t, cwds) && ip in cwds
    ensures ip < |t| && t[ip].ref >= 1
  {}

  lemma CwdMoves(files: seq<OpenFile>, t: seq<Inode>, t': seq<Inode>, cwds: multiset<nat>, cwd: nat, ip: nat)
    requires Accounted(files, t, cwds) && RefsBy(t, t', multiset{ip}) && ip < |t'|
    ensures Accounted(files, t', cwds + multiset{ip})
  {
    hide Holds;
    forall l: nat | l < |t'| ensures t'[l].ref == Holds(files)[l] + (cwds + multiset{ip})[l] {
      assert t'[l].ref == t[l].ref + multiset{ip}[l];
    }
  }

  lemma CwdGone(files: seq<OpenFile>, t: seq<Inode>, t': seq<Inode>, cwds: multiset<nat>, cwd: nat, ip: nat)
    requires Accounted(files, t, cwds + multiset{ip}) && OneLess(t, t', cwd) && cwd in cwds
    ensures Accounted(files, t', cwds - multiset{cwd} + multiset{ip})
  {
    hide Holds;
    forall l: nat | l < |t'| ensures t'[l].ref == Holds(files)[l] + (cwds - multiset{cwd} + multiset{ip})[l] {
      assert t[l].ref == Holds(files)[l] + (cwds + multiset{ip})[l];
      assert multiset{cwd}[l] == if l == cwd then 1 else 0;
      assert cwds[cwd] >= 1;
    }
    forall l: nat | l in cwds - multiset{cwd} + multiset{ip} ensures l < |t'| {
      assert l in cwds + multiset{ip};
    }
  }

  // The path names a directory that some slot of the inode table holds.
  ghost predicate OpenDirNamed(f: seq<File>, t: seq<Inode>, path: seq<byte>, cwd: nat) {
    var p := ParentOf(f, path, cwd);
    0 < p < |f| && Comps(path) != []
    && var i := LookupIno(f[p].data, LastName(path));
    i < |f| && f[i].typ == TYPE_DIR && exists l: nat :: l < |t| && t[l].ref >= 1 && t[l].no == i
  }

  lemma OpenDirMeans(f: seq<File>, f': seq<File>, t: seq<Inode>, t': seq<Inode>, path: seq<byte>, cwd: nat, j: int)
    requires |f| == INUM && !Refuses(f, path, cwd) && Unlinks(f, f', t, t', path, cwd, j)
    ensures OpenDirNamed(f, t, path, cwd) <==>
      j >= 0 && f[LookupIno(f[ParentOf(f, path, cwd)].data, LastName(path))].typ == TYPE_DIR
  {
    hide LookupIno, Comps, LastName, Removed, MarkedBy;
    ParentIsDir(f, path, cwd);
    var i := LookupIno(f[ParentOf(f, path, cwd)].data, LastName(path));
    assert HeldIn(t, i, j);
    if j >= 0 {
      var l: nat := j;
      assert t[l].ref >= 1 && t[l].no == i;
    }
  }

  lemma UnlinkBooks(files: seq<OpenFile>, f: seq<File>, f': seq<File>, t: seq<Inode>, t': seq<Inode>, path: seq<byte>,
      cwd: nat, j: int,
                    cwds: multiset<nat>)
    requires Accounted(files, t, cwds) && Writers(files, f, t, cwds) && Unlinks(f, f', t, t', path, cwd, j)
    requires forall l: nat | l < |t| && t[l].ref >= 1 :: 0 < t[l].no < INUM
    ensures Accounted(files, t', cwds) && Writers(files, f', t', cwds)
  {
    hide Holds, LookupIno, EntryFrom, Comps, EntrySet;
    assert TypesKept(f, t, f', t') by { hide Accounted, Writers; }
    AccountedSame(files, files, t, t', cwds);
    WritersKept(files, f, t, f', t', cwds);
  }

  lemma HoldOne(o: OpenFile)
    requires o.ref >= 1 && o.typ == TYPE_FILE
    ensures Hold(o) == multiset{o.inode}
  {}

  lemma OpenedTypes(f: seq<File>, f': seq<File>, t: seq<Inode>, t': seq<Inode>, path: seq<byte>, cwd: nat, typ: u32,
      ino: nat, got: multiset<nat>)
    requires |f| == INUM && OpenedPath(f, f', path, cwd, typ, ino) && RefsBy(t, t', got)
    requires forall l: nat | l < |t| && t[l].ref >= 1 :: 0 < t[l].no < INUM && f[t[l].no].typ != TYPE_NONE
    ensures TypesKept(f, t, f', t')
  {
    hide Comps, LookupIno, ParentOf, FreeEntry, EntrySet, OnlyDots;
  }

  lemma TypesAfterClose(f0: seq<File>, t0: seq<Inode>, f: seq<File>, t: seq<Inode>, t': seq<Inode>, ip: nat)
    requires TypesKept(f0, t0, f, t) && OneLess(t, t', ip)
    ensures TypesKept(f0, t0, f, t')
  {}

  lemma TypesData(f0: seq<File>, t0: seq<Inode>, f: seq<File>, t: seq<Inode>, i: nat, d: seq<byte>, t': seq<Inode>)
    requires TypesKept(f0, t0, f, t) && i < |f| && SameRefs(t, t')
    ensures TypesKept(f0, t0, f[i := f[i].(data := d)], t')
  {}

  // References are back where they were, and entry k holds none.
  lemma Rebalance(before: seq<OpenFile>, after: seq<OpenFile>, t: seq<Inode>, t': seq<Inode>, f: seq<File>,
      f': seq<File>, cwds: multiset<nat>, k: nat)
    requires Accounted(before, t, cwds) && Writers(before, f, t, cwds) && RefsBy(t, t', multiset{})
      && TypesKept(f, t, f', t')
    requires |after| == |before| && k < |before| && before[k].ref == 0 && after == before[k := after[k]]
    requires after[k].ref == 0 || after[k].typ != TYPE_FILE
    ensures Accounted(after, t', cwds) && Writers(after, f', t', cwds)
  {
    WritersKept(before, f, t, f', t', cwds);
    HoldsSame(before, k, after[k]);
    hide Holds, Accounted;
    assert Writers(after, f', t', cwds);
    AccountedSame(before, after, t, t', cwds);
  }

  lemma WritersOpen(before: seq<OpenFile>, after: seq<OpenFile>, t: seq<Inode>, t': seq<Inode>, f: seq<File>,
      f': seq<File>, cwds: multiset<nat>, k: nat)
    requires Accounted(before, t, cwds) && Writers(before, f, t, cwds) && TypesKept(f, t, f', t')
    requires |after| == |before| && k < |before| && after == before[k := after[k]]
    requires after[k].inode < |t'| && t'[after[k].inode].no < |f'|
    requires after[k].writable ==> f'[t'[after[k].inode].no].typ != TYPE_DIR
    ensures Writers(after, f', t', cwds)
  {
    hide Accounted;
    WritersKept(before, f, t, f', t', cwds);
  }

  // The inodes that are unlinked but still open.
  function Marked(t: seq<Inode>): set<nat> {
    set l: nat | l < |t| && t[l].ref >= 1 && t[l].del :: t[l].no
  }

  lemma MarkedLess(t: seq<Inode>, t': seq<Inode>, ip: nat)
    requires OneLess(t, t', ip) && t[ip].ref >= 1 && !t[ip].del
    ensures Marked(t') == Marked(t)
  {
    forall l: nat | l < |t| ensures (t'[l].ref >= 1 && t'[l].del) == (t[l].ref >= 1 && t[l].del)
      && t'[l].no == t[l].no {}
  }

  // Of the files of f, only marked ones are gone in f'.
  ghost predicate OnlyMarkedGo(f: seq<File>, f': seq<File>, m: set<nat>) {
    |f'| == |f| && forall i: nat | i < |f| :: f'[i] == f[i] || (i in m && f'[i] == NO_FILE)
  }

  lemma MarkedClose(f: seq<File>, t: seq<Inode>, t': seq<Inode>, o: OpenFile)
    requires o.inode < |t| && |t'| == |t|
      && (forall l: nat | l < |t| && l != o.inode :: t'[l] == t[l]) && t[o.inode].ref >= 1
    requires t'[o.inode].ref == t[o.inode].ref - 1 && t'[o.inode].no == t[o.inode].no
      && t'[o.inode].del == t[o.inode].del
    ensures Marked(t') <= Marked(t) && OnlyMarkedGo(f, FilesAfterClose(f, t, o), Marked(t))
  {
    forall l: nat | l < |t| && t'[l].ref >= 1 && t'[l].del ensures t[l].ref >= 1 && t[l].del && t'[l].no == t[l].no {}
    assert t[o.inode].del ==> t[o.inode].no in Marked(t);
  }

  lemma DupRefs(t: seq<Inode>, t': seq<Inode>, ip: nat)
    requires ip < |t| && t[ip].ref >= 1 && t' == t[ip := t[ip].(ref := t[ip].ref + 1)]
    ensures RefsBy(t, t', multiset{ip}) && Marked(t') == Marked(t)
  {
    forall l: nat | l < |t| ensures (t'[l].ref >= 1 && t'[l].del) == (t[l].ref >= 1 && t[l].del)
      && t'[l].no == t[l].no {}
  }

  lemma TypesMore(f: seq<File>, t: seq<Inode>, t': seq<Inode>, got: multiset<nat>)
    requires RefsBy(t, t', got) && forall l: nat | l < |t| && t[l].ref >= 1 :: t[l].no < |f|
    ensures TypesKept(f, t, f, t')
  {}

  lemma CwdIsDir(files: seq<OpenFile>, f: seq<File>, t: seq<Inode>, cwds: multiset<nat>, cwd: nat)
    requires Writers(files, f, t, cwds) && cwd in cwds
    ensures cwd < |t| && t[cwd].no < |f| && f[t[cwd].no].typ == TYPE_DIR
  {}

  lemma CwdLess(files: seq<OpenFile>, t: seq<Inode>, t': seq<Inode>, cwds: multiset<nat>, cwd: nat)
    requires Accounted(files, t, cwds) && OneLess(t, t', cwd) && cwd in cwds
    ensures Accounted(files, t', cwds - multiset{cwd})
  {
    hide Holds;
    forall l: nat | l < |t'| ensures t'[l].ref == Holds(files)[l] + (cwds - multiset{cwd})[l] {
      assert multiset{cwd}[l] == if l == cwd then 1 else 0;
      assert cwds[cwd] >= 1;
    }
    forall l: nat | l in cwds - multiset{cwd} ensures l < |t'| { assert l in cwds; }
  }

  lemma RefsStay(t: seq<Inode>, t': seq<Inode>, got: multiset<nat>)
    requires RefsBy(t, t', got)
    ensures forall l: nat | l < |t| && t[l].ref >= 1 :: l < |t'| && t'[l].ref >= 1 && t'[l].no == t[l].no
  {}

  lemma RootIs(fs: Fs)
    requires fs.Valid()
    ensures fs.sb.root == ROOT_INO
  {}

  lemma WritersMore(files: seq<OpenFile>, f: seq<File>, t: seq<Inode>, cwds: multiset<nat>, ip: nat)
    requires Writers(files, f, t, cwds) && ip < |t| && t[ip].no < |f| && f[t[ip].no].typ == TYPE_DIR
    ensures Writers(files, f, t, cwds + multiset{ip})
  {}

  lemma WritersLess(files: seq<OpenFile>, f: seq<File>, t: seq<Inode>, cwds: multiset<nat>, cwds': multiset<nat>)
    requires Writers(files, f, t, cwds) && forall l: nat | l in cwds' :: l in cwds
    ensures Writers(files, f, t, cwds')
  {}

  lemma NotDir(files: seq<OpenFile>, f: seq<File>, t: seq<Inode>, k: nat, cwds: multiset<nat>)
    requires Writers(files, f, t, cwds) && k < |files| && files[k].ref >= 1 && files[k].typ == TYPE_FILE
      && files[k].writable
    ensures files[k].inode < |t| && t[files[k].inode].no < |f| && f[t[files[k].inode].no].typ != TYPE_DIR
  {}

  lemma KeptBySameRefs(before: seq<OpenFile>, after: seq<OpenFile>, f: seq<File>, t: seq<Inode>, f': seq<File>,
      t': seq<Inode>, cwds: multiset<nat>)
    requires Accounted(before, t, cwds) && Writers(before, f, t, cwds) && SameRefs(t, t') && System(f', t)
    requires Holds(after) == Holds(before) && |after| == |before|
    requires forall l: nat | l < |t| && t[l].ref >= 1 :: t[l].no < |f|
    requires |f'| == |f| && forall i | 0 <= i < |f| :: f'[i].typ == f[i].typ
    requires forall k | 0 <= k < |after| && after[k].ref >= 1 ::
      before[k].ref >= 1 && after[k].typ == before[k].typ && after[k].writable == before[k].writable
        && after[k].inode == before[k].inode
    ensures Accounted(after, t', cwds) && Writers(after, f', t', cwds) && System(f', t')
  {
    hide System, Holds;
    SystemSame(f', t, t');
    AccountedSame(before, after, t, t', cwds);
    WritersKept(before, f, t, f', t', cwds);
    hide Accounted;
    WritersFewer(before, after, f', t', cwds);
  }

  lemma {:induction false} NoHolds(files: seq<OpenFile>)
    requires forall k | 0 <= k < |files| :: files[k].ref == 0
    ensures Holds(files) == multiset{}
  {
    if files != [] { NoHolds(files[..|files| - 1]); }
  }

  lemma AccountedClose(files: seq<OpenFile>, files': seq<OpenFile>, t: seq<Inode>, t': seq<Inode>, cwds: multiset<nat>,
      k: nat)
    requires Accounted(files, t, cwds) && k < |files| && files[k].ref == 1 && files[k].typ == TYPE_FILE
    requires files' == files[k := files[k].(ref := 0)]
    requires |t'| == |t| && files[k].inode < |t|
    requires forall l: nat | l < |t| && l != files[k].inode :: t'[l] == t[l]
    requires t'[files[k].inode].ref == t[files[k].inode].ref - 1
    ensures Accounted(files', t', cwds)
  {
    hide Holds;
    var ip := files[k].inode;
    HoldsUpdate(files, k, files'[k]);
    assert Hold(files[k]) == multiset{ip} && Hold(files'[k]) == multiset{};
    BagClose(Holds(files), Holds(files'), t, t', cwds, ip);
  }

  lemma BagClose(b: multiset<nat>, b': multiset<nat>, t: seq<Inode>, t': seq<Inode>, cwds: multiset<nat>, ip: nat)
    requires multiset{ip} <= b && b' == b - multiset{ip} + multiset{} && |t'| == |t| && ip < |t|
      && forall l: nat | l < |t| :: t[l].ref == b[l] + cwds[l]
    requires forall l: nat | l < |t| && l != ip :: t'[l] == t[l]
    requires t'[ip].ref == t[ip].ref - 1
    ensures forall l: nat | l < |t| :: t'[l].ref == b'[l] + cwds[l]
    ensures forall l: nat | l in b' :: l in b
  {
    assert ip in multiset{ip};
  }

  // The last close of the last open file on an unlinked inode deletes it.
  function FilesAfterClose(f: seq<File>, t: seq<Inode>, o: OpenFile): seq<File> {
    if o.ref == 1 && o.typ == TYPE_FILE && o.inode < |t| && t[o.inode].ref == 1 && t[o.inode].del && t[o.inode].no < |f|
    then f[t[o.inode].no := NO_FILE] else f
  }

  lemma WritersFewer(files: seq<OpenFile>, files': seq<OpenFile>, f: seq<File>, t: seq<Inode>, cwds: multiset<nat>)
    requires Writers(files, f, t, cwds) && |files'| == |files|
    requires forall k | 0 <= k < |files| && files'[k].ref >= 1 ::
      files[k].ref >= 1 && files'[k].typ == files[k].typ && files'[k].writable == files[k].writable
        && files'[k].inode == files[k].inode
    ensures Writers(files', f, t, cwds)
  {}

  lemma WritersClose(files: seq<OpenFile>, files': seq<OpenFile>, f: seq<File>, t: seq<Inode>, f': seq<File>,
      t': seq<Inode>,
                     cwds: multiset<nat>, k: nat)
    requires Writers(files, f, t, cwds) && k < |files| && files[k].ref == 1 && files[k].typ == TYPE_FILE
    requires files' == files[k := files[k].(ref := 0)] && Accounted(files', t', cwds)
    requires |t'| == |t| && files[k].inode < |t| && t[files[k].inode].ref >= 1
    requires forall l: nat | l < |t| && l != files[k].inode :: t'[l] == t[l]
    requires t'[files[k].inode].ref == t[files[k].inode].ref - 1 && t'[files[k].inode].no == t[files[k].inode].no
    requires forall l: nat | l < |t| && t[l].ref >= 1 && t[l].no == t[files[k].inode].no :: l == files[k].inode
    requires f' == FilesAfterClose(f, t, files[k])
    ensures Writers(files', f', t', cwds)
  {
    hide Accounted;
    forall x: nat | x < |files'| && files'[x].ref >= 1 && files'[x].typ == TYPE_FILE && files'[x].writable
      ensures files'[x].inode < |t'| && t'[files'[x].inode].no < |f'| && f'[t'[files'[x].inode].no].typ != TYPE_DIR
    {
      AccountedHold(files', t', cwds, x);
    }
    forall l: nat | l in cwds ensures l < |t'| && t'[l].no < |f'| && f'[t'[l].no].typ == TYPE_DIR {
      CwdLive(files', t', cwds, l);
    }
  }
}

// From the image builder to the first user process: what the kernel finds at boot and sets up.
module Boot {
  import opened DiskCache
  import opened Layout
  import opened Ownership
  import opened Files
  import opened Dirents
  import opened Inodes
  import opened Directories
  import opened Options
  import opened Bytes
  import opened Devices
  import opened Paths
  import opened Namespace
  import opened Namei
  import opened OpenFiles
  import opened ProcRuns
  import opened SystemCalls
  import opened Mkfs

  // A disk that holds an image made by mkfs comes up as a kernel whose books all balance, with the device
  // nodes in place, and in which the path of every file that was put in leads to a file with its bytes.
  // It does not come up if one of these files is called dev, or if there is no room for the nodes.
  method BootImage(disk: BlockDevice, image: Image, ghost files: seq<SourceFile>)
    returns (r: Outcome<Kernel>, ghost ft: FileTable, ghost g: seq<File>, ghost h: seq<File>)
    requires disk.Valid() && image.Valid() && image.SuperNow() == SUPER && System(image.F(), [])
    requires disk.Blocks() == image.blocks[..] && Contains(image.F(), files)
    modifies disk.cache, disk.sectors
    ensures Stages(old(image.F()), g, h)
    ensures r.Abort? && !DevTaken(old(image.F())) ==>
      Exhausted(ft.fs, old(image.F())) || Exhausted(ft.fs, g) || Exhausted(ft.fs, h)
    ensures r.Done? ==> r.value.Valid() && DevicesUp(old(image.F()), r.value.ft.Now())
    ensures r.Done? ==> fresh(r.value) && fresh(r.value.procs) && fresh(r.value.procs.Parts())
    ensures r.Done? ==> fresh(r.value.ft) && fresh(r.value.ft.files) && fresh(r.value.ft.fs.inodes)
    ensures r.Done? ==> fresh(r.value.ft.fs) && r.value.ft.fs.disk == disk
    ensures r.Done? ==> exists cwd: nat :: r.value.procs.Abs() == Init(cwd)
    ensures r.Done? ==> forall n: nat, cwd: nat | n < |files| :: Leads(r.value.ft.Now(), files[n], cwd)
  {
    hide ViewOf, Owned, SoundInodes, Mkfs.Image.Counters, System, Inodes.Fs.Valid, OpenFiles.FileTable.Valid, Init,
      Contains, Leads, DevicesUp, DevTaken, Exhausted, Kept, Stages, SystemCalls.Kernel.Valid, ProcTables.ProcTable.Abs,
      FilesOf;
    FilesLead(image.F(), files);
    ghost var f := image.F();
    var fs := new Fs(disk, image.own);
    var table := new FileTable(fs);
    ft := table;
    fs.Sound();
    forall j: nat ensures !Unlinked(fs.inodes[..], j) {}
    SystemAny(f, [], fs.inodes[..]);
    table.Fresh();
    r, g, h := StartUp(table);
    if r.Done? { StillLead(f, r.value.ft.Now(), files); }
  }

  // init_proc, init_dev and init_user_and_go, on a file system nobody has used yet.
  method StartUp(table: FileTable) returns (r: Outcome<Kernel>, ghost g: seq<File>, ghost h: seq<File>)
    requires table.Valid(multiset{}) && forall k | 0 <= k < TOTAL_FILE :: table.files[k].ref == 0
    requires forall j | 0 <= j < INODE_NUM :: table.fs.inodes[j].ref == 0
    modifies table.fs`own, table.fs.inodes, table.fs.disk.cache, table.fs.disk.sectors
    ensures Stages(old(table.fs.F()), g, h)
    ensures r.Abort? && !DevTaken(old(table.fs.F())) ==>
      Exhausted(table.fs, old(table.fs.F())) || Exhausted(table.fs, g) || Exhausted(table.fs, h)
    ensures r.Done? ==> r.value.Valid() && r.value.ft == table && fresh(r.value)
    ensures r.Done? ==> DevicesUp(old(table.fs.F()), table.Now())
    ensures r.Done? ==> fresh(r.value.procs) && fresh(r.value.procs.Parts())
    ensures r.Done? ==> exists cwd: nat :: r.value.procs.Abs() == Init(cwd)
  {
    hide System, Inodes.Fs.Valid, Inodes.Fs.F, OpenFiles.FileTable.Now, Accounted, Writers, Kinds, Init, DevicesUp,
      DevTaken, Exhausted, SystemCalls.Kernel.Valid, ProcTables.ProcTable.Abs;
    table.NowIs(multiset{});
    table.fs.Sound();
    ghost var f := table.fs.F();
    g, h := f, f;
    assert table.fs.inodes[0].ref == 0;
    var root := table.OpenRoot(multiset{});
    if root.Abort? { assert false; return Abort, g, h; }
    ghost var cwds := multiset{} + multiset{root.value};
    table.Stands(root.value, cwds);
    table.NowIs(cwds);
    var dev;
    dev, g, h := InitDev(table, root.value, cwds);
    if dev.Abort? { return Abort, g, h; }
    table.Stands(root.value, cwds);
    table.NowIs(cwds);
    var again := table.OpenRoot(cwds);
    if again.Abort? { assert false; return Abort, g, h; }
    assert cwds + multiset{again.value} == multiset{root.value, root.value};
    table.NowIs(multiset{root.value, root.value});
    var k := new Kernel(table, root.value);
    return Done(k), g, h;
  }

  // From whatever directory, the file's name below the root leads to a file with its bytes.
  ghost predicate Leads(f: seq<File>, file: SourceFile, cwd: nat) {
    PlainName(file.name) ==>
      var ino := Target(f, [SLASH] + file.name, cwd);
      0 < ino < |f| && f[ino].typ == TYPE_FILE && f[ino].data == file.data
  }

  lemma StillLead(f: seq<File>, f': seq<File>, files: seq<SourceFile>)
    requires DevicesUp(f, f') && forall n: nat, cwd: nat | n < |files| :: Leads(f, files[n], cwd)
    ensures forall n: nat, cwd: nat | n < |files| :: Leads(f', files[n], cwd)
  {
    hide Target, DevTaken, DeviceAt;
    forall n: nat, cwd: nat | n < |files| ensures Leads(f', files[n], cwd) { assert Leads(f, files[n], cwd); }
  }

  // A name that basename can return, the root apart.
  predicate PlainName(name: Name) { name != [] && SLASH !in name }

  lemma FilesLead(f: seq<File>, files: seq<SourceFile>)
    requires Contains(f, files) && System(f, [])
    ensures forall n: nat, cwd: nat | n < |files| :: Leads(f, files[n], cwd)
  {
    hide System, LookupIno;
    SystemRoot(f, []);
    forall n: nat, cwd: nat | n < |files| ensures Leads(f, files[n], cwd) {
      var name := files[n].name;
      if PlainName(name) {
        var path := [SLASH] + name;
        assert path[1..] == name && name + [] == name;
        CompsSlash(path);
        CompsWord(name, []);
        assert Comps([SLASH] + name) == [name];
        FoundInRoot(f, name);
      }
    }
  }

  lemma FoundInRoot(f: seq<File>, name: Name)
    requires |f| == INUM && f[ROOT_INO].typ == TYPE_DIR
    ensures Resolve(f, ROOT_INO, [name]) == LookupIno(f[ROOT_INO].data, name)
  {
    var one := [name];
    assert one[0] == name && one[1..] == [];
  }

  // A file called dev is in the way of the device directory.
  lemma DevInTheWay(f: seq<File>, files: seq<SourceFile>, n: nat)
    requires Contains(f, files) && System(f, []) && n < |files| && files[n].name == DEV_NAME
    ensures DevTaken(f)
  {
    hide System;
    assert PlainName(files[n].name) && DEV_DIR == [SLASH] + files[n].name;
    FilesLead(f, files);
    assert Leads(f, files[n], ROOT_INO);
  }

  // The kernel reads back what mkfs was given, short of the largest size and as long as there is room.
  method ReadBack(k: Kernel, file: SourceFile, size: u32) returns (r: Outcome<Option<seq<byte>>>)
    requires k.Valid() && PlainName(file.name) && Leads(k.ft.Now(), file, k.Here()) && |file.data| <= size
    modifies k.ft.fs`own, k.ft.fs.inodes, k.ft.fs.disk.cache, k.ft.fs.disk.sectors
    ensures r.Done? ==> k.Valid() && k.ft.Now() == old(k.ft.Now()) && r.value == Some(file.data)
    ensures r.Abort? ==> Exhausted(k.ft.fs, old(k.ft.Now())) || |file.data| >= MAX_FILE
  {
    hide SystemCalls.Kernel.Valid, Target, Exhausted, OpenFiles.FileTable.Now;
    assert Window(file.data, 0, size) == file.data;
    r := k.LoadFile([SLASH] + file.name, 0, size);
  }
}

// From the image that mkfs writes to any run of the machine.
module PowerOn {
  import opened DiskCache
  import opened Layout
  import opened Namespace
  import opened Directories
  import opened Inodes
  import opened Files
  import opened OpenFiles
  import opened Procs
  import opened ProcRuns
  import opened Devices
  import opened SystemCalls
  import opened Mkfs
  import opened Boot
  import Machine

  // The machine is switched on with an image made by mkfs, and runs through any entries. Unless init_dev
  // finds no room, or a file called dev in the way, it comes up; and as long as it does not stop, the books
  // of files, processes and terminal balance, and what could happen has happened.
  method SwitchOn(disk: BlockDevice, image: Image, ghost files: seq<SourceFile>, entries: seq<Machine.Entry>)
    returns (m: Outcome<Machine.Machine>, n: nat, ghost ft: FileTable, ghost stages: (seq<File>, seq<File>),
      ghost states: seq<State>, ghost blocks: seq<seq<Event>>)
    requires disk.Valid() && image.Valid() && image.SuperNow() == SUPER && System(image.F(), [])
    requires disk.Blocks() == image.blocks[..] && Contains(image.F(), files)
    modifies disk, disk.cache, disk.sectors
    ensures Stages(old(image.F()), stages.0, stages.1)
    ensures m.Abort? && !DevTaken(old(image.F())) ==>
      Exhausted(ft.fs, old(image.F())) || Exhausted(ft.fs, stages.0) || Exhausted(ft.fs, stages.1)
    ensures m.Done? ==> n <= |entries| && (n < |entries| ==> Machine.MayStop(entries[n]))
    ensures m.Done? && n == |entries| ==> m.value.Valid() && m.value.events == Machine.Flat(blocks)
    ensures m.Done? && n == |entries| ==> Machine.Trace(entries, n, states, blocks) && states[n] == m.value.Abs()
    ensures m.Done? && n == |entries| ==> states[0] == Init(m.value.cwd)
  {
    hide DevTaken, DevicesUp, Stages, Exhausted, Contains, Leads, System, Init, Machine.MayStop, Machine.Trace,
      Machine.Flat, Machine.Machine.Valid, Machine.Machine.Abs, ProcTables.ProcTable.Abs, SystemCalls.Kernel.Valid,
      OpenFiles.FileTable.Now, Mkfs.Image.Valid, Mkfs.Image.F, Mkfs.Image.SuperNow, DiskCache.BlockDevice.Valid,
      DiskCache.BlockDevice.Blocks;
    ghost var g, h;
    var k;
    k, ft, g, h := BootImage(disk, image, files);
    stages := (g, h);
    n, states, blocks := 0, [], [];
    if k.Abort? { return Abort, n, ft, stages, states, blocks; }
    ghost var cwd: nat :| k.value.procs.Abs() == Init(cwd);
    var machine := new Machine.Machine(k.value, cwd);
    n, states, blocks := machine.Run(entries);
    return Done(machine), n, ft, stages, states, blocks;
  }
}

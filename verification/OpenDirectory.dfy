// A directory can be unlinked while it is open: fs.c, line 544 on, does not ask. A file system in which
// that happens, and what it leads to.
module OpenDirectory {
  import opened Bytes
  import opened Layout
  import opened Files
  import opened Dirents
  import opened Inodes
  import opened Directories
  import opened Paths
  import opened Namespace
  import opened Namei
  import opened OpenFiles
  import opened Mkfs

  const SUB_INO := 2
  const SUB: Name := [100]

  function Dots(ino: nat, parent: nat): seq<byte>
    requires ino < INUM && parent < INUM
  {
    var dot := Fill(Zeros(DIRENT_SIZE), ino, DOT);
    dot + Fill(dot, parent, DOTDOT)
  }

  // The root directory, and in it an empty directory called d.
  function RootOnly(): (f: seq<File>)
    ensures |f| == INUM
  {
    seq(INUM, i => if i == ROOT_INO then File(TYPE_DIR, 0, Dots(ROOT_INO, ROOT_INO)) else NO_FILE)
  }

  function WithSub(): (f: seq<File>)
    ensures |f| == INUM
  {
    var root := RootOnly()[ROOT_INO];
    RootOnly()[SUB_INO := File(TYPE_DIR, 0, Dots(SUB_INO, ROOT_INO))][
      ROOT_INO := root.(data := root.data + Fill(Zeros(DIRENT_SIZE), SUB_INO, SUB))]
  }

  // One process stands in the root, another one in d.
  function Standing(): seq<Inode> {
    [Inode(ROOT_INO, 1, false, ZeroDinode()), Inode(SUB_INO, 1, false, ZeroDinode())]
  }

  lemma DotsAre(ino: nat, parent: nat)
    requires 0 < ino < INUM && 0 < parent < INUM
    ensures OnlyDots(Dots(ino, parent), ino, parent) && |Dots(ino, parent)| == 2 * DIRENT_SIZE
  {
    hide Fill, EntIno, EntName;
    var a := Fill(Zeros(DIRENT_SIZE), ino, DOT);
    var b := Fill(a, parent, DOTDOT);
    FillMeans(Zeros(DIRENT_SIZE), ino, DOT);
    FillMeans(a, parent, DOTDOT);
    OverlayEntry([], 0, a);
    AppendOverlay([], a);
    assert [] + a == a;
    OverlayEntry(a, 1, b);
    AppendOverlay(a, b);
  }

  // A file system as it can be: everything in it is in order.
  lemma SubSystem()
    ensures System(WithSub(), Standing()) && LookupIno(WithSub()[ROOT_INO].data, SUB) == SUB_INO
  {
    hide Fill, System, OnlyDots, LookupIno, Dots;
    var f, g, raw := RootOnly(), WithSub(), Fill(Zeros(DIRENT_SIZE), SUB_INO, SUB);
    DotsAre(ROOT_INO, ROOT_INO);
    DotsAre(SUB_INO, ROOT_INO);
    RootSystem(f);
    var before := [Inode(ROOT_INO, 1, false, ZeroDinode()), Inode(0, 0, false, ZeroDinode())];
    SystemAny(f, [], before);
    FillMeans(Zeros(DIRENT_SIZE), SUB_INO, SUB);
    OverlayEntry(f[ROOT_INO].data, 2, raw);
    AppendOverlay(f[ROOT_INO].data, raw);
    NotInDots(f[ROOT_INO].data, ROOT_INO, ROOT_INO, SUB);
    assert Created(f, g, ROOT_INO, 2, SUB_INO, SUB, TYPE_DIR);
    CreateSystem(f, g, before, Standing(), ROOT_INO, 2, SUB_INO, SUB, TYPE_DIR, 1);
    LookupAfterCreate(f, g, ROOT_INO, 2, SUB_INO, SUB, TYPE_DIR, SUB);
  }

  lemma NotInDots(c: seq<byte>, ino: nat, parent: nat, name: Name)
    requires OnlyDots(c, ino, parent) && ino != 0 && parent != 0 && |c| == 2 * DIRENT_SIZE && name != DOT
      && name != DOTDOT
    ensures LookupIno(c, name) == 0 && FreeEntry(c, 2 * DIRENT_SIZE)
  {
    FirstEntry(c, name, 2);
  }

  // A process in the root unlinks d while another one stands in it: nothing stops it.
  lemma UnlinkInUse()
    ensures System(WithSub(), Standing())
    ensures !Refuses(WithSub(), SUB, ROOT_INO) && OpenDirNamed(WithSub(), Standing(), SUB, ROOT_INO)
  {
    hide System, Dots, LookupIno, OnlyDots;
    SubSystem();
    CompsWord(SUB, []);
    assert SUB + [] == SUB;
    DotsAre(SUB_INO, ROOT_INO);
    assert NoEntries(WithSub()[SUB_INO].data);
    assert Standing()[1].no == SUB_INO;
  }

  // Whatever state the unlink leaves, it is not one the file system is meant to be in: a directory is
  // left that no path leads to.
  lemma UnlinkBreaks(f': seq<File>, t': seq<Inode>, j: int)
    requires Unlinks(WithSub(), f', Standing(), t', SUB, ROOT_INO, j)
    ensures !System(f', t')
  {
    hide System, Unlinks, Refuses, OpenDirNamed;
    UnlinkInUse();
    UnlinkSystem(WithSub(), f', Standing(), t', SUB, ROOT_INO, j);
    OpenDirMeans(WithSub(), f', Standing(), t', SUB, ROOT_INO, j);
  }
}

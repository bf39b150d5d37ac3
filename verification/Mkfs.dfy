// utils/mkfs.c: the program that builds the disk image, in memory. What it leaves behind is what
// the kernel needs to start from.
module Mkfs {
  import opened Bytes
  import opened DiskCache
  import opened Layout
  import opened BitBytes
  import opened Ownership
  import opened Files
  import opened Dirents
  import opened Inodes
  import opened Directories
  import opened Namespace

  const ALL_ONES: u32 := 0xffff_ffff

  // The file system of an image with nothing but the reserved blocks.
  function EmptyStore(): Store {
    Store(seq(BLK_NUM, b => b < DATA_START), seq(INUM, _ => ZeroDinode()), seq(BLK_NUM, _ => ZERO_BLOCK))
  }

  // Words 0 and 1 of the bitmap set, nothing else on the disk from the bitmap on.
  ghost predicate Blank(d: Disk) {
    && d[BITMAP_BLK] == Splice(Splice(ZERO_BLOCK, 0, Enc32(ALL_ONES)), 4, Enc32(ALL_ONES))
    && forall b | BITMAP_BLK < b < BLK_NUM :: d[b] == ZERO_BLOCK
  }

  lemma ZeroDinodeRead(no: nat)
    requires no < INUM
    ensures DecodeDinode(ZERO_BLOCK[InoOff(no)..InoOff(no) + DINODE_SIZE]) == ZeroDinode()
  {
    var s := ZERO_BLOCK[InoOff(no)..InoOff(no) + DINODE_SIZE];
    assert s == Zeros(DINODE_SIZE);
    forall i: nat | i < 16 ensures Word(s, i) == 0 { WordZeros(DINODE_SIZE, i); }
    assert DecodeDinode(s).addrs == ZeroDinode().addrs;
  }

  lemma BlankBit(b: nat)
    requires b < BLK_NUM
    ensures BitAt(Splice(Splice(ZERO_BLOCK, 0, Enc32(ALL_ONES)), 4, Enc32(ALL_ONES)), b) == (b < DATA_START)
  {
    hide Splice;
    var one := Splice(ZERO_BLOCK, 4 * 0, Enc32(ALL_ONES));
    WordSplice(ZERO_BLOCK, 0, ALL_ONES, b / 32);
    WordSplice(one, 1, ALL_ONES, b / 32);
    WordZeros(BLK_SIZE, b / 32);
    Pow2Values();
    if b < DATA_START { LargestWordBit(ALL_ONES, 32, b % 32); } else { NoBits(b % 32); }
  }

  lemma BlankView(d: Disk)
    requires Blank(d)
    ensures ViewOf(d) == EmptyStore()
  {
    hide Splice, BitAt;
    forall b: nat | b < BLK_NUM ensures BitAt(d[BITMAP_BLK], b) == (b < DATA_START) { BlankBit(b); }
    forall no: nat | no < INUM ensures DinodeAt(d, no) == ZeroDinode() { ZeroDinodeRead(no); }
    assert ViewOf(d).bits == EmptyStore().bits;
    assert ViewOf(d).dis == EmptyStore().dis;
    assert ViewOf(d).data == EmptyStore().data;
  }

  lemma EmptyOwned()
    ensures Owned(EmptyStore(), map[]) && SoundInodes(EmptyStore())
  {
    var s := EmptyStore();
    forall i: nat, k: nat | i < INUM && k < NSLOT ensures Ptr(s, i, k) == 0 {}
  }

  // A file to put into the image, under the last component of its path.
  datatype SourceFile = SourceFile(name: Name, data: seq<byte>)

  ghost predicate Distinct(files: seq<SourceFile>) {
    && (forall j, k | 0 <= j < k < |files| :: files[j].name != files[k].name)
    && (forall j | 0 <= j < |files| :: files[j].name != DOT && files[j].name != DOTDOT)
  }

  // f with file ino, entered at the end of the root directory.
  function Added(f: seq<File>, ino: nat, data: seq<byte>, dirent: seq<byte>): seq<File> {
    if ino < |f| && ROOT_INO < |f| then
      f[ino := File(TYPE_FILE, 0, data)][ROOT_INO := f[ROOT_INO].(data := f[ROOT_INO].data + dirent)]
    else f
  }

  // No entry of the directory is free.
  predicate AllUsed(c: seq<byte>) {
    forall l: nat | l < Count(c) :: EntIno(c, l) != 0
  }

  // The first n files are there, in inodes 2 on, entered in that order; nothing else is.
  ghost predicate Built(f: seq<File>, files: seq<SourceFile>, n: nat) {
    && n <= |files| && |f| == INUM && 2 + n <= INUM && f[ROOT_INO].typ == TYPE_DIR
    && var c := f[ROOT_INO].data;
    && |c| == DIRENT_SIZE * (2 + n) && EntName(c, 0) == DOT && EntName(c, 1) == DOTDOT
      && EntIno(c, 0) == EntIno(c, 1) == ROOT_INO
    && (forall j: nat | j < n :: Stored(f, files[j], 2 + j))
  }

  // Entry k of the root directory names file k, and the file holds these bytes.
  ghost predicate Stored(f: seq<File>, file: SourceFile, k: nat)
    requires |f| > ROOT_INO && k < Count(f[ROOT_INO].data)
  {
    && EntIno(f[ROOT_INO].data, k) == k && EntName(f[ROOT_INO].data, k) == file.name
    && k < |f| && f[k] == File(TYPE_FILE, 0, file.data)
  }

  // The root directory leads to every file, with exactly its bytes.
  ghost predicate Contains(f: seq<File>, files: seq<SourceFile>) {
    |f| == INUM && forall k: nat | k < |files| ::
      LookupIno(f[ROOT_INO].data, files[k].name) == 2 + k && 2 + k < INUM
        && f[2 + k] == File(TYPE_FILE, 0, files[k].data)
  }

  class Image {
    const blocks: array<Block>
    var nextBlk: nat
    var nextInode: nat
    ghost var own: map<nat, Slot>

    // A new image file, all zeros; the blocks before it belong to the boot loader and the kernel.
    constructor (boot: seq<Block>)
      requires |boot| == SUPER_BLOCK
      ensures fresh(blocks) && blocks.Length == BLK_NUM && nextBlk == DATA_START && nextInode == 1
      ensures forall b | SUPER_BLOCK <= b < BLK_NUM :: blocks[b] == ZERO_BLOCK
    {
      blocks := new Block[BLK_NUM](i => if 0 <= i < |boot| then boot[i] else ZERO_BLOCK);
      nextBlk, nextInode := DATA_START, 1;
    }

    ghost predicate Raw()
      reads this, blocks
    {
      blocks.Length == BLK_NUM
    }

    ghost function V(): Store
      requires blocks.Length == BLK_NUM
      reads this, blocks
    {
      ViewOf(blocks[..])
    }

    // balloc and ialloc never look back: what they have not reached is untouched.
    ghost predicate Counters(s: Store)
      reads this
    {
      && DATA_START <= nextBlk <= BLK_NUM && 1 <= nextInode <= INUM
      && (forall b: nat | b < BLK_NUM :: s.bits[b] == (b < nextBlk))
      && (forall b: nat | nextBlk <= b < BLK_NUM :: s.data[b] == ZERO_BLOCK)
      && (forall i: nat | 1 <= i < INUM :: s.dis[i].typ == TYPE_NONE <==> nextInode <= i)
    }

    ghost predicate Valid()
      reads this, blocks
    {
      && blocks.Length == BLK_NUM && Owned(V(), own) && SoundInodes(V()) && Counters(V())
    }

    ghost function F(): (f: seq<File>)
      requires blocks.Length == BLK_NUM && SoundInodes(V())
      reads this, blocks
      ensures |f| == INUM
    {
      FilesOf(V())
    }

    // What the superblock says.
    ghost function SuperNow(): SuperBlock
      requires blocks.Length == BLK_NUM
      reads blocks
    {
      DecodeSuper(blocks[SUPER_BLOCK][..16])
    }

    method PutWord(b: nat, i: nat, w: u32)
      requires blocks.Length == BLK_NUM && SUPER_BLOCK <= b < BLK_NUM && i < NINDIRECT
      modifies blocks
      ensures blocks[..] == old(blocks[..])[b := Splice(old(blocks[b]), 4 * i, Enc32(w))]
    {
      blocks[b] := Splice(blocks[b], 4 * i, Enc32(w));
    }

    method GetDinode(no: nat) returns (di: Dinode)
      requires blocks.Length == BLK_NUM && no < INUM
      ensures di == V().dis[no]
    {
      di := DecodeDinode(blocks[no / IPERBLK + INODE_START][InoOff(no)..InoOff(no) + DINODE_SIZE]);
    }

    method SetDinode(no: nat, di: Dinode)
      requires blocks.Length == BLK_NUM && no < INUM
      modifies blocks
      ensures V() == old(V()).(dis := old(V()).dis[no := di])
      ensures SuperNow() == old(SuperNow())
    {
      ViewDinode(blocks[..], no, di);
      var b := no / IPERBLK + INODE_START;
      blocks[b] := Splice(blocks[b], InoOff(no), EncodeDinode(di));
      assert blocks[..] == old(blocks[..])[InoBlk(no) := Splice(old(blocks[..])[InoBlk(no)], InoOff(no),
        EncodeDinode(di))];
    }

    method Balloc() returns (r: Outcome<u32>)
      requires Valid()
      modifies `nextBlk, blocks
      ensures blocks.Length == BLK_NUM && Counters(V())
      ensures SuperNow() == old(SuperNow())
      ensures r.Abort? <==> old(nextBlk) == BLK_NUM
      ensures r.Abort? ==> V() == old(V()) && nextBlk == old(nextBlk)
      ensures r.Done? ==> r.value == old(nextBlk) && nextBlk == r.value + 1 && !old(V()).bits[r.value]
      ensures r.Done? ==> r.value < BLK_NUM && V() == Taken(old(V()), r.value)
    {
      hide ViewOf, Owned, SoundInodes, BitBytes.Marked;
      if nextBlk >= BLK_NUM { return Abort; }
      ViewMarked(blocks[..], nextBlk);
      ghost var s := V();
      blocks[BITMAP_BLK] := Marked(blocks[BITMAP_BLK], nextBlk);
      assert blocks[..] == old(blocks[..])[BITMAP_BLK := Marked(old(blocks[..])[BITMAP_BLK], nextBlk)];
      assert s.data[nextBlk := ZERO_BLOCK] == s.data;
      nextBlk := nextBlk + 1;
      return Done(nextBlk - 1);
    }

    method Ialloc(typ: u32) returns (r: Outcome<nat>)
      requires Valid() && typ != TYPE_NONE
      modifies `nextInode, blocks
      ensures Valid() && nextBlk == old(nextBlk)
      ensures SuperNow() == old(SuperNow())
      ensures r.Abort? <==> old(nextInode) == INUM
      ensures r.Done? ==> 0 < r.value < INUM && r.value == old(nextInode) && nextInode == r.value + 1
      ensures r.Done? ==> old(F())[r.value].typ == TYPE_NONE && F() == old(F())[r.value := File(typ, 0, [])]
      ensures r.Abort? ==> F() == old(F())
    {
      hide ViewOf, Owned, SoundInodes;
      if nextInode >= INUM { return Abort; }
      ghost var s, f := V(), F();
      assert f[nextInode].typ == s.dis[nextInode].typ;
      TypedFiles(s, own, nextInode, typ);
      var di := GetDinode(nextInode);
      SetDinode(nextInode, di.(typ := typ));
      nextInode := nextInode + 1;
      return Done(nextInode - 1);
    }

    // A block for an address of the inode itself.
    method GrowSlot(ino: nat, k: nat) returns (r: Outcome<u32>)
      requires Valid() && ino < INUM && k <= NDIRECT && V().dis[ino].addrs[k] == 0 && V().dis[ino].typ != TYPE_NONE
      modifies `nextBlk, `own, blocks
      ensures Valid() && SuperNow() == old(SuperNow()) && nextInode == old(nextInode)
      ensures r.Abort? ==> nextBlk == BLK_NUM && V() == old(V())
      ensures r.Done? ==> Grew(old(V()), V(), ino) && r.value != 0 && V().dis[ino].addrs[k] == r.value
    {
      hide ViewOf, Owned, SoundInodes, Grew;
      ghost var s := V();
      r := Balloc();
      if r.Abort? { return; }
      GrowAddr(s, own, ino, k, r.value);
      ghost var t := V();
      var di := GetDinode(ino);
      SetDinode(ino, di.(addrs := di.addrs[k := r.value]));
      own := own[r.value := Slot(ino, k)];
      assert Counters(t) ==> Counters(V());
    }

    // A block for entry n of the indirect block.
    method GrowIndirect(ino: nat, n: nat) returns (r: Outcome<u32>)
      requires Valid() && ino < INUM && n < NINDIRECT && V().dis[ino].typ != TYPE_NONE
      requires V().dis[ino].addrs[NDIRECT] != 0 && Ptr(V(), ino, NDIRECT + 1 + n) == 0
      modifies `nextBlk, `own, blocks
      ensures Valid() && SuperNow() == old(SuperNow()) && nextInode == old(nextInode)
      ensures r.Abort? ==> nextBlk == BLK_NUM && V() == old(V())
      ensures r.Done? ==> Grew(old(V()), V(), ino) && r.value != 0 && Ptr(V(), ino, NDIRECT + 1 + n) == r.value
    {
      hide ViewOf, Owned, SoundInodes, Grew, Ptr;
      ghost var s := V();
      var di := GetDinode(ino);
      var ind := di.addrs[NDIRECT];
      r := Balloc();
      if r.Abort? { return; }
      GrowEntry(s, own, ino, n, r.value);
      UsedIndirect(s, own, ino);
      ghost var t := V();
      PutBlock(ind, 4 * n, Enc32(r.value));
      own := own[r.value := Slot(ino, NDIRECT + 1 + n)];
    }

    // memcpy into a data block in use
    method PutBlock(b: nat, off: nat, src: seq<byte>)
      requires blocks.Length == BLK_NUM && DATA_START <= b < nextBlk <= BLK_NUM && off + |src| <= BLK_SIZE
        && Counters(V())
      modifies blocks
      ensures V() == old(V()).(data := old(V()).data[b := Splice(old(V()).data[b], off, src)]) && Counters(V())
      ensures SuperNow() == old(SuperNow())
    {
      ViewData(blocks[..], b, Splice(blocks[b], off, src));
      blocks[b] := Splice(blocks[b], off, src);
      assert blocks[..] == old(blocks[..])[b := Splice(old(blocks[..])[b], off, src)];
    }

    // The block that holds the n-th block of file ino, allocating what is missing.
    method Iwalk(ino: nat, n: nat) returns (r: Outcome<u32>)
      requires Valid() && ino < INUM && V().dis[ino].typ != TYPE_NONE
      modifies `nextBlk, `own, blocks
      ensures Valid() && SuperNow() == old(SuperNow()) && nextInode == old(nextInode)
      ensures r.Abort? ==> nextBlk == BLK_NUM || n >= MAX_BLKS
      ensures Grew(old(V()), V(), ino)
      ensures r.Done? ==> n < MAX_BLKS && r.value == DataPtr(V(), ino, n) && r.value != 0
    {
      hide ViewOf, Owned, SoundInodes, Grew, Counters, SuperNow;
      ghost var s := V();
      GrewReflexive(s, ino);
      var di := GetDinode(ino);
      if n < NDIRECT {
        if di.addrs[n] == 0 {
          r := GrowSlot(ino, n);
          return;
        }
        return Done(di.addrs[n]);
      }
      if n - NDIRECT < NINDIRECT {
        r := IwalkIndirect(ino, n - NDIRECT);
        return;
      }
      return Abort;
    }

    // The same for the blocks behind the indirect one.
    method IwalkIndirect(ino: nat, m: nat) returns (r: Outcome<u32>)
      requires Valid() && ino < INUM && V().dis[ino].typ != TYPE_NONE && m < NINDIRECT
      modifies `nextBlk, `own, blocks
      ensures Valid() && SuperNow() == old(SuperNow()) && nextInode == old(nextInode)
      ensures r.Abort? ==> nextBlk == BLK_NUM
      ensures Grew(old(V()), V(), ino)
      ensures r.Done? ==> r.value == DataPtr(V(), ino, NDIRECT + m) && r.value != 0
    {
      hide ViewOf, Owned, SoundInodes, Grew, Counters, SuperNow, Ptr;
      ghost var s := V();
      GrewReflexive(s, ino);
      var di := GetDinode(ino);
      var ind := di.addrs[NDIRECT];
      if ind == 0 {
        r := GrowSlot(ino, NDIRECT);
        if r.Abort? { return; }
        ind := r.value;
      }
      ghost var t := V();
      GrewHeader(s, t, ino);
      UsedIndirect(t, own, ino);
      EntryIs(blocks[..], ino, m);
      var b := Word(blocks[ind], m);
      if b == 0 {
        r := GrowIndirect(ino, m);
        if r.Done? { GrewTransitive(s, t, V(), ino); }
        return;
      }
      return Done(b);
    }

    method Iappend(ino: nat, buf: seq<byte>) returns (r: Outcome<()>)
      requires Valid() && ino < INUM && V().dis[ino].typ != TYPE_NONE
      modifies `nextBlk, `own, blocks
      ensures blocks.Length == BLK_NUM && SuperNow() == old(SuperNow()) && nextInode == old(nextInode)
      ensures r.Done? ==> Valid()
      ensures r.Done? ==> F() == old(F())[ino := old(F())[ino].(data := old(F())[ino].data + buf)]
      ensures r.Abort? ==> nextBlk == BLK_NUM || |old(F())[ino].data| + |buf| > MAX_FILE
    {
      hide ViewOf, Owned, SoundInodes, Grew, Counters, SuperNow, DataPtr, Wrote, FileWritten, FilesOf, Overlay;
      ghost var s, c := V(), F()[ino].data;
      var di := GetDinode(ino);
      var off: nat := di.size;
      SizeIs(s, ino);
      var pos: nat, size: nat, rest := off, |buf|, buf;
      WroteNothing(s, ino, off);
      assert buf[..0] == [];
      while size > 0
        invariant Valid() && SuperNow() == old(SuperNow()) && nextInode == old(nextInode)
        invariant pos + size == off + |buf| && off <= pos <= MAX_FILE && rest == buf[pos - off..]
        invariant Wrote(s, V(), ino, off, buf[..pos - off]) && V().dis[ino].typ != TYPE_NONE
        decreases size
      {
        ghost var done := buf[..pos - off];
        var block_no, offset := pos / BLK_SIZE, pos % BLK_SIZE;
        ghost var t := V();
        var w := Iwalk(ino, block_no);
        if w.Abort? { return Abort; }
        var block, bytes := w.value, BLK_SIZE - offset;
        if bytes > size { bytes := size; }
        ghost var u := V();
        DataPtrUsed(u, own, ino, block_no);
        PutData(ino, rest[..bytes], block, block_no, offset);
        WroteMore(s, t, u, V(), own, ino, off, done, rest[..bytes], block);
        WroteHeader(s, V(), ino, off, done + rest[..bytes]);
        assert done + rest[..bytes] == buf[..pos + bytes - off];
        pos := pos + bytes;
        rest := rest[bytes..];
        size := size - bytes;
      }
      assert buf[..pos - off] == buf;
      SetFileSize(ino, pos, s, buf);
      AppendOverlay(c, buf);
      return Done(());
    }

    // The file now ends at pos.
    method SetFileSize(ino: nat, pos: u32, ghost s: Store, ghost buf: seq<byte>)
      requires Valid() && ino < INUM && V().dis[ino].typ != TYPE_NONE && SoundInodes(s) && pos <= MAX_FILE
      requires pos == s.dis[ino].size + |buf| && Wrote(s, V(), ino, s.dis[ino].size, buf)
      modifies blocks
      ensures Valid() && SuperNow() == old(SuperNow())
      ensures F() == FilesOf(s)[ino := FilesOf(s)[ino].(data := Overlay(FilesOf(s)[ino].data, |FilesOf(s)[ino].data|,
        buf))]
    {
      hide ViewOf, Owned, SoundInodes, Counters, Wrote, FileWritten, FilesOf, Overlay;
      ghost var t := V();
      SizeIs(s, ino);
      SizedWritten(s, t, own, ino, s.dis[ino].size, buf);
      var di := GetDinode(ino);
      SetDinode(ino, di.(size := pos));
      CountersSame(t);
      WrittenFiles(s, V(), ino, s.dis[ino].size, buf);
    }

    // init_disk up to the root inode.
    method InitBlocks()
      requires blocks.Length == BLK_NUM && nextBlk == DATA_START && nextInode == 1
      requires forall b | SUPER_BLOCK <= b < BLK_NUM :: blocks[b] == ZERO_BLOCK
      modifies `own, blocks
      ensures Valid() && V() == EmptyStore()
      ensures SuperNow() == SUPER.(root := SuperNow().root)
    {
      hide ViewOf, Splice, Word, EmptyStore, Owned, SoundInodes, DecodeSuper;
      SuperWords(blocks[SUPER_BLOCK], BITMAP_BLK, INODE_START, INUM);
      PutWord(SUPER_BLOCK, 0, BITMAP_BLK);
      PutWord(SUPER_BLOCK, 1, INODE_START);
      PutWord(SUPER_BLOCK, 2, INUM);
      PutWord(BITMAP_BLK, 0, ALL_ONES);
      PutWord(BITMAP_BLK, 1, ALL_ONES);
      BlankView(blocks[..]);
      EmptyOwned();
      own := map[];
      EmptyCounters();
    }

    lemma EmptyCounters()
      requires nextBlk == DATA_START && nextInode == 1
      ensures Counters(EmptyStore())
    {}

    // The superblock, the reserved blocks, and a root directory with its two entries. The bytes of a
    // dirent behind its name are whatever was in memory.
    method InitDisk(junk: seq<byte>) returns (r: Outcome<()>)
      requires blocks.Length == BLK_NUM && nextBlk == DATA_START && nextInode == 1 && |junk| == DIRENT_SIZE
      requires forall b | SUPER_BLOCK <= b < BLK_NUM :: blocks[b] == ZERO_BLOCK
      modifies `nextBlk, `nextInode, `own, blocks
      ensures r.Done? ==> Valid() && SuperNow() == SUPER && nextInode == 2 && System(F(), [])
      ensures r.Done? ==> OnlyDots(F()[ROOT_INO].data, ROOT_INO, ROOT_INO) && F()[ROOT_INO].typ == TYPE_DIR
      ensures r.Done? ==> forall i | 2 <= i < INUM :: F()[i] == NO_FILE
      ensures r.Abort? ==> nextBlk == BLK_NUM
    {
      hide ViewOf, Owned, SoundInodes, Counters, FilesOf, Fill, OnlyDots, System, EmptyStore, Splice, Word, DecodeSuper;
      InitBlocks();
      EmptyFiles();
      var root := Ialloc(TYPE_DIR);
      if root.Abort? { return Abort; }
      SetRoot(root.value);
      TypedDis(F(), V(), ROOT_INO);
      var dirent := Fill(junk, root.value, DOT);
      r := Iappend(ROOT_INO, dirent);
      if r.Abort? { return; }
      TypedDis(F(), V(), ROOT_INO);
      r := Iappend(ROOT_INO, Fill(dirent, root.value, DOTDOT));
      if r.Abort? { return; }
      TwoDots(junk, ROOT_INO);
      RootSystem(F());
    }

    // The superblock names the root inode.
    method SetRoot(root: u32)
      requires Valid() && root == ROOT_INO
      requires SuperNow() == SUPER.(root := SuperNow().root)
      modifies blocks
      ensures Valid() && SuperNow() == SUPER && V() == old(V())
    {
      hide ViewOf, Splice, Word, Owned, SoundInodes, Counters, DecodeSuper;
      RootWord(blocks[SUPER_BLOCK], root);
      ViewSuper(blocks[..], Splice(blocks[SUPER_BLOCK], 12, Enc32(root)));
      PutWord(SUPER_BLOCK, 3, root);
    }

    // One file: an inode, its name in the root directory, then the bytes, read BLK_SIZE at a time.
    method AddFile(name: Name, data: seq<byte>, junk: seq<byte>) returns (r: Outcome<()>)
      requires Valid() && SuperNow() == SUPER && System(F(), []) && |junk| == DIRENT_SIZE && 2 <= nextInode
      requires F()[ROOT_INO].typ == TYPE_DIR && LookupIno(F()[ROOT_INO].data, name) == 0 && AllUsed(F()[ROOT_INO].data)
      modifies `nextBlk, `nextInode, `own, blocks
      ensures r.Done? ==> Valid() && SuperNow() == SUPER && System(F(), []) && nextInode == old(nextInode) + 1 <= INUM
      ensures r.Done? ==> F() == Added(old(F()), old(nextInode), data, Fill(junk, old(nextInode), name))
      ensures r.Abort? ==>
        nextBlk == BLK_NUM || old(nextInode) == INUM || |data| > MAX_FILE
          || |old(F())[ROOT_INO].data| + DIRENT_SIZE > MAX_FILE
    {
      hide ViewOf, Owned, SoundInodes, Counters, FilesOf, Fill, System, LookupIno, SuperNow, Added, AllUsed;
      ghost var f, next := F(), nextInode;
      var i := Ialloc(TYPE_FILE);
      if i.Abort? { return Abort; }
      var ino := i.value;
      ghost var g := F();
      TypedDis(g, V(), ROOT_INO);
      r := Iappend(ROOT_INO, Fill(junk, ino, name));
      if r.Abort? { return; }
      ghost var h := F();
      NamedSystem(f, h, ino, name, junk);
      var rest := data;
      assert data[..0] == [];
      while |rest| > 0
        invariant Valid() && SuperNow() == SUPER && nextInode == next + 1 && |rest| <= |data|
          && rest == data[|data| - |rest|..]
        invariant F() == h[ino := File(TYPE_FILE, 0, data[..|data| - |rest|])]
      {
        var n := if |rest| < BLK_SIZE then |rest| else BLK_SIZE;
        ghost var done := data[..|data| - |rest|];
        TypedDis(F(), V(), ino);
        r := Iappend(ino, rest[..n]);
        if r.Abort? { return; }
        assert done + rest[..n] == data[..|data| - |rest| + n];
        rest := rest[n..];
      }
      assert data[..|data|] == data;
      AddedIs(f, h, ino, data, Fill(junk, ino, name));
      DataSystem(h, [], ino, data);
      return Done(());
    }

    // main: the whole image; panic only if all blocks or all inodes are in use, or a file is too big.
    method Build(files: seq<SourceFile>, junk: seq<byte>) returns (r: Outcome<()>)
      requires blocks.Length == BLK_NUM && nextBlk == DATA_START && nextInode == 1 && |junk| == DIRENT_SIZE
      requires forall b | SUPER_BLOCK <= b < BLK_NUM :: blocks[b] == ZERO_BLOCK
      requires Distinct(files)
      modifies `nextBlk, `nextInode, `own, blocks
      ensures r.Done? ==> Valid() && SuperNow() == SUPER && System(F(), [])
      ensures r.Done? ==> Contains(F(), files)
      ensures r.Abort? ==> nextBlk == BLK_NUM || 2 + |files| > INUM || exists k: nat ::
        k < |files| && |files[k].data| > MAX_FILE
    {
      hide ViewOf, Owned, SoundInodes, Counters, FilesOf, Fill, System, LookupIno, SuperNow, Added, Built, Distinct,
        OnlyDots, AllUsed;
      r := InitDisk(junk);
      if r.Abort? { return; }
      BuiltNothing(F(), files);
      for k := 0 to |files|
        invariant Valid() && SuperNow() == SUPER && System(F(), []) && nextInode == 2 + k && nextInode <= INUM
        invariant Built(F(), files, k)
      {
        ghost var f := F();
        BuiltLookup(f, files, k, files[k].name);
        r := AddFile(files[k].name, files[k].data, junk);
        if r.Abort? { return; }
        BuiltMore(f, F(), files, k, junk);
      }
      forall k: nat | k < |files|
        ensures LookupIno(F()[ROOT_INO].data, files[k].name) == 2 + k && 2 + k < INUM
          && F()[2 + k] == File(TYPE_FILE, 0, files[k].data)
      {
        BuiltLookup(F(), files, |files|, files[k].name);
        BuiltFile(F(), files, |files|, k);
      }
      return Done(());
    }

    // memcpy into the n-th block of file ino
    method PutData(ino: nat, src: seq<byte>, b: nat, n: nat, off: nat)
      requires Valid() && ino < INUM && n < MAX_BLKS && off + |src| <= BLK_SIZE
      requires b == DataPtr(V(), ino, n) && DATA_START <= b < BLK_NUM && V().bits[b]
      modifies blocks
      ensures Valid() && SuperNow() == old(SuperNow())
      ensures V() == old(V()).(data := old(V()).data[b := Splice(old(V()).data[b], off, src)])
    {
      hide ViewOf, Owned, Ptr, ByteAt, BytesWritten, OnlyGrows;
      Below(b);
      WriteBlock(V(), own, ino, n, off, src);
      PutBlock(b, off, src);
    }

    lemma Below(b: nat)
      requires Valid() && b < BLK_NUM && V().bits[b]
      ensures b < nextBlk <= BLK_NUM
    {}

    lemma CountersSame(t: Store)
      requires blocks.Length == BLK_NUM && Counters(t)
      requires V().bits == t.bits && V().data == t.data && forall i | 0 <= i < INUM :: V().dis[i].typ == t.dis[i].typ
      ensures Counters(V())
    {
      hide ViewOf;
    }
  }

  // A block some inode names is marked in use.
  lemma UsedBlock(s: Store, own: map<nat, Slot>, ino: nat, k: nat)
    requires Owned(s, own) && ino < INUM && k < NSLOT && Ptr(s, ino, k) != 0
    ensures DATA_START <= Ptr(s, ino, k) < BLK_NUM && s.bits[Ptr(s, ino, k)]
  {}

  lemma UsedIndirect(s: Store, own: map<nat, Slot>, ino: nat)
    requires Owned(s, own) && ino < INUM && s.dis[ino].addrs[NDIRECT] != 0
    ensures DATA_START <= s.dis[ino].addrs[NDIRECT] < BLK_NUM && s.bits[s.dis[ino].addrs[NDIRECT]]
  {
    UsedBlock(s, own, ino, NDIRECT);
  }


  lemma GrewHeader(s: Store, t: Store, ino: nat)
    requires ino < INUM && Grew(s, t, ino)
    ensures t.dis[ino].typ == s.dis[ino].typ && t.dis[ino].size == s.dis[ino].size
  {
    assert SameHeader(s, t, ino);
  }

  lemma WroteHeader(s: Store, v: Store, ino: nat, off: nat, buf: seq<byte>)
    requires ino < INUM && Wrote(s, v, ino, off, buf)
    ensures v.dis[ino].typ == s.dis[ino].typ && v.dis[ino].size == s.dis[ino].size
  {
    assert SameHeader(s, v, ino);
  }

  lemma EntryIs(d: Disk, ino: nat, m: nat)
    requires ino < INUM && m < NINDIRECT && DATA_START <= ViewOf(d).dis[ino].addrs[NDIRECT] < BLK_NUM
    ensures Word(d[ViewOf(d).dis[ino].addrs[NDIRECT]], m) == Ptr(ViewOf(d), ino, NDIRECT + 1 + m)
      == DataPtr(ViewOf(d), ino, NDIRECT + m)
  {
    hide BitAt, DinodeAt;
  }

  lemma DataPtrUsed(s: Store, own: map<nat, Slot>, ino: nat, n: nat)
    requires Owned(s, own) && ino < INUM && n < MAX_BLKS && DataPtr(s, ino, n) != 0
    ensures DATA_START <= DataPtr(s, ino, n) < BLK_NUM && s.bits[DataPtr(s, ino, n)]
  {
    UsedBlock(s, own, ino, Ownership.SlotOf(n));
  }

  lemma SizeIs(s: Store, ino: nat)
    requires ino < INUM && SoundInodes(s)
    ensures s.dis[ino].size <= MAX_FILE && |FilesOf(s)[ino].data| == s.dis[ino].size
  {}

  // The file now ends at pos.
  lemma SizedWritten(s: Store, t: Store, own: map<nat, Slot>, ino: nat, off: nat, buf: seq<byte>)
    requires ino < INUM && Wrote(s, t, ino, off, buf) && Owned(t, own) && SoundInodes(t) && t.dis[ino].typ != TYPE_NONE
    requires off == s.dis[ino].size && off + |buf| <= MAX_FILE
    ensures var u := Resized(t, ino, off + |buf|); Owned(u, own) && SoundInodes(u) && FileWritten(s, u, ino, off, buf)
  {
    hide Owned, SoundInodes, Wrote, FileWritten;
    SetSize(s, t, own, ino, off, buf);
    WroteHeader(s, t, ino, off, buf);
    if buf == [] { assert Resized(t, ino, off).dis == t.dis; }
  }

  lemma AppendOverlay(c: seq<byte>, buf: seq<byte>)
    ensures Overlay(c, |c|, buf) == c + buf
  {}

  lemma SuperWords(blk: Block, a: u32, b: u32, c: u32)
    ensures var sb := DecodeSuper(Splice(Splice(Splice(blk, 4 * 0, Enc32(a)), 4 * 1, Enc32(b)), 4 * 2, Enc32(c))[..16]);
      sb.bitmap == a && sb.istart == b && sb.inum == c
  {
    hide Word, Splice;
    var one: Block := Splice(blk, 4 * 0, Enc32(a));
    var two: Block := Splice(one, 4 * 1, Enc32(b));
    WordSplice(blk, 0, a, 0);
    forall k: nat | k < 2 ensures Word(two, k) == if k == 1 then b else Word(one, k) { WordSplice(one, 1, b, k); }
    forall k: nat | k < 3 ensures Word(Splice(two, 4 * 2, Enc32(c)), k) == if k == 2 then c else Word(two, k) {
      WordSplice(two, 2, c, k);
    }
    SuperWord(Splice(two, 4 * 2, Enc32(c)));
  }

  lemma SuperWord(sb: Block)
    ensures DecodeSuper(sb[..16]) == SuperBlock(Word(sb, 0), Word(sb, 1), Word(sb, 2), Word(sb, 3))
  {
    forall k: nat | k < 4 ensures Word(sb[..16], k) == Word(sb, k) {
      assert sb[..16][4 * k..4 * k + 4] == sb[4 * k..4 * k + 4];
    }
  }

  lemma RootWord(sb: Block, root: u32)
    ensures DecodeSuper(Splice(sb, 12, Enc32(root))[..16]) == DecodeSuper(sb[..16]).(root := root)
  {
    hide Word, Splice;
    var sb': Block := Splice(sb, 4 * 3, Enc32(root));
    forall k: nat | k < 4 ensures Word(sb', k) == if k == 3 then root else Word(sb, k) { WordSplice(sb, 3, root, k); }
    SuperWord(sb);
    SuperWord(sb');
  }

  // The file system does not reach down to the superblock.
  lemma ViewSuper(d: Disk, blk: Block)
    ensures ViewOf(d[SUPER_BLOCK := blk]) == ViewOf(d)
  {
    hide BitAt;
    var d' := d[SUPER_BLOCK := blk];
    forall no: nat | no < INUM ensures DinodeAt(d', no) == DinodeAt(d, no) {}
    assert ViewOf(d').bits == ViewOf(d).bits;
    assert ViewOf(d').dis == ViewOf(d).dis;
    assert ViewOf(d').data == ViewOf(d).data;
  }

  lemma EmptyFiles()
    ensures SoundInodes(EmptyStore()) && FilesOf(EmptyStore()) == seq(INUM, _ => NO_FILE)
  {}

  lemma TypedDis(f: seq<File>, s: Store, i: nat)
    requires SoundInodes(s) && f == FilesOf(s) && i < INUM
    ensures s.dis[i].typ == f[i].typ
  {}

  lemma TwoDots(junk: seq<byte>, ino: u32)
    requires |junk| == DIRENT_SIZE && ino != 0
    ensures OnlyDots([] + Fill(junk, ino, DOT) + Fill(Fill(junk, ino, DOT), ino, DOTDOT), ino, ino)
  {
    hide Fill, EntIno, EntName;
    var a, b := Fill(junk, ino, DOT), Fill(Fill(junk, ino, DOT), ino, DOTDOT);
    FillMeans(junk, ino, DOT);
    FillMeans(a, ino, DOTDOT);
    OverlayEntry([], 0, a);
    AppendOverlay([], a);
    assert [] + a == a;
    OverlayEntry(a, 1, b);
    AppendOverlay(a, b);
  }

  // A root directory and nothing else is a tree.
  lemma RootSystem(f: seq<File>)
    requires |f| == INUM && f[ROOT_INO].typ == TYPE_DIR && OnlyDots(f[ROOT_INO].data, ROOT_INO, ROOT_INO)
    requires forall i | 0 <= i < INUM && i != ROOT_INO :: f[i] == NO_FILE
    ensures System(f, [])
  {
    var ns := NodesOf(f);
    var home: map<nat, Home> := map[];
    var es := EntriesOf(f[ROOT_INO].data);
    assert ns[ROOT_INO] == Dir(es) && |es| == 2 && es[0] == Entry(ROOT_INO, DOT) && es[1] == Entry(ROOT_INO, DOTDOT);
    hide OnlyDots, EntriesOf;
    assert forall d: nat | IsDir(ns, d) :: d == ROOT_INO;
    assert Tree(ns, home);
    assert Marks(ns, [], home);
  }

  // With no inode open, it does not matter how large the table is.
  lemma SystemAny(f: seq<File>, t: seq<Inode>, u: seq<Inode>)
    requires System(f, t) && (forall j: nat :: !Unlinked(t, j)) && forall j: nat :: !Unlinked(u, j)
    ensures System(f, u)
  {
    hide Tree, WholeEntries;
    var home :| Tree(NodesOf(f), home) && Marks(NodesOf(f), t, home);
    forall i: nat ensures !Held(t, i) && !Held(u, i) {}
    assert Marks(NodesOf(f), u, home);
  }

  // An empty file named in the root directory.
  lemma NamedSystem(f: seq<File>, h: seq<File>, ino: nat, name: Name, junk: seq<byte>)
    requires |f| == INUM && System(f, []) && 1 < ino < INUM && f[ino].typ == TYPE_NONE && |junk| == DIRENT_SIZE
    requires f[ROOT_INO].typ == TYPE_DIR && LookupIno(f[ROOT_INO].data, name) == 0 && AllUsed(f[ROOT_INO].data)
    requires var g := f[ino := File(TYPE_FILE, 0, [])];
      h == g[ROOT_INO := g[ROOT_INO].(data := g[ROOT_INO].data + Fill(junk, ino, name))]
    ensures System(h, [])
  {
    hide Fill, Tree, Marks, LookupIno;
    var c, raw := f[ROOT_INO].data, Fill(junk, ino, name);
    FillMeans(junk, ino, name);
    assert |c| % DIRENT_SIZE == 0;
    var e := Count(c);
    OverlayEntry(c, e, raw);
    AppendOverlay(c, raw);
    assert Created(f, h, ROOT_INO, e, ino, name, TYPE_FILE);
    var slot := Inode(0, 0, false, ZeroDinode());
    SystemAny(f, [], [slot]);
    hide System, Created;
    CreateSystem(f, h, [slot], [Inode(ino, 1, false, ZeroDinode())], ROOT_INO, e, ino, name, TYPE_FILE, 0);
    SystemAny(h, [Inode(ino, 1, false, ZeroDinode())], []);
  }

  lemma AddedIs(f: seq<File>, h: seq<File>, ino: nat, data: seq<byte>, raw: seq<byte>)
    requires |f| == INUM && 1 < ino < INUM
    requires var g := f[ino := File(TYPE_FILE, 0, [])]; h == g[ROOT_INO := g[ROOT_INO].(data := g[ROOT_INO].data + raw)]
    ensures h[ino := File(TYPE_FILE, 0, data)] == Added(f, ino, data, raw) == h[ino := h[ino].(data := data)]
    ensures h[ino] == File(TYPE_FILE, 0, []) && h[ino := h[ino]] == h
  {}

  lemma BuiltNothing(f: seq<File>, files: seq<SourceFile>)
    requires |f| == INUM && f[ROOT_INO].typ == TYPE_DIR && OnlyDots(f[ROOT_INO].data, ROOT_INO, ROOT_INO)
    ensures Built(f, files, 0)
  {}

  lemma BuiltMore(f: seq<File>, f': seq<File>, files: seq<SourceFile>, k: nat, junk: seq<byte>)
    requires Built(f, files, k) && k < |files| && 2 + k < INUM && |junk| == DIRENT_SIZE
    requires f' == Added(f, 2 + k, files[k].data, Fill(junk, 2 + k, files[k].name))
    ensures Built(f', files, k + 1)
  {
    hide Fill, EntIno, EntName;
    var c, raw := f[ROOT_INO].data, Fill(junk, 2 + k, files[k].name);
    FillMeans(junk, 2 + k, files[k].name);
    OverlayEntry(c, 2 + k, raw);
    AppendOverlay(c, raw);
    var c' := f'[ROOT_INO].data;
    assert c' == Overlay(c, DIRENT_SIZE * (2 + k), raw) && |c'| == DIRENT_SIZE * (3 + k);
    assert EntrySet(c, c', 2 + k, 2 + k, files[k].name);
    hide Overlay, Added;
    forall j: nat | j < k + 1 ensures Stored(f', files[j], 2 + j) {
      if j < k { assert Stored(f, files[j], 2 + j) && 2 + j < Count(c); }
    }
  }

  // Looking up a name among the first n: found where it was put, or not at all.
  lemma BuiltLookup(f: seq<File>, files: seq<SourceFile>, n: nat, name: Name)
    requires Built(f, files, n) && Distinct(files) && exists k: nat :: k < |files| && files[k].name == name
    ensures |f| == INUM && f[ROOT_INO].typ == TYPE_DIR && AllUsed(f[ROOT_INO].data)
      && |f[ROOT_INO].data| == DIRENT_SIZE * (2 + n)
    ensures var c := f[ROOT_INO].data;
      forall k: nat | k < |files| && files[k].name == name :: LookupIno(c, name) == if k < n then 2 + k else 0
  {
    hide EntIno, EntName, LookupIno;
    var c := f[ROOT_INO].data;
    assert Count(c) == 2 + n;
    forall l: nat | l < Count(c) ensures EntIno(c, l) != 0 {
      if l >= 2 {
        var j: nat := l - 2;
        assert Stored(f, files[j], 2 + j);
      }
    }
    forall k: nat | k < |files| && files[k].name == name ensures LookupIno(c, name) == if k < n then 2 + k else 0 {
      forall l: nat | l < Count(c) && Names(c, l, name) ensures k < n && l == 2 + k {
        if l >= 2 { assert Stored(f, files[l - 2], 2 + (l - 2)); }
      }
      if k < n {
        assert Stored(f, files[k], 2 + k);
        FirstEntry(c, name, 2 + k);
      } else {
        FirstEntry(c, name, Count(c));
      }
    }
  }

  lemma BuiltFile(f: seq<File>, files: seq<SourceFile>, n: nat, k: nat)
    requires Built(f, files, n) && k < n
    ensures 2 + k < INUM && f[2 + k] == File(TYPE_FILE, 0, files[k].data)
  {}
}

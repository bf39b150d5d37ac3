// kernel/src/fs.c, lines 110-246 and 390-503: block and inode allocation, the in-memory
// inode table, and reading, writing, truncating and closing files.
module Inodes {
  import opened Bytes
  import opened DiskCache
  import opened Layout
  import opened Ownership
  import opened Files

  // A kernel assert(0) halts the machine.
  datatype Outcome<+T> = Done(value: T) | Abort

  const INODE_NUM := 128

  datatype Inode = Inode(no: nat, ref: nat, del: bool, dinode: Dinode)

  // A slot in use mirrors the dinode on disk, which is allocated, and no two
  // slots in use hold the same inode.
  ghost predicate TableOk(t: seq<Inode>, s: Store) {
    && (forall j | 0 <= j < |t| && t[j].ref >= 1 ::
      0 < t[j].no < INUM && t[j].dinode == s.dis[t[j].no] && t[j].dinode.typ != TYPE_NONE)
    && (forall j, l | 0 <= j < |t| && 0 <= l < |t| && t[j].ref >= 1 && t[l].ref >= 1 && t[j].no == t[l].no :: j == l)
  }

  // The same inodes are open, with the same reference counts and deletion marks.
  ghost predicate SameRefs(t: seq<Inode>, t': seq<Inode>) {
    && |t'| == |t|
    && forall j | 0 <= j < |t| ::
      t'[j].no == t[j].no && t'[j].ref == t[j].ref && t'[j].del == t[j].del
  }

  ghost predicate Full(s: Store) {
    forall b: nat | b < BLK_NUM :: s.bits[b]
  }

  // The bytes a read of len bytes at off may return.
  function Window(c: seq<byte>, off: nat, len: nat): (w: seq<byte>) {
    if off >= |c| then [] else if off + len <= |c| then c[off..off + len] else c[off..]
  }

  lemma WindowGrow(c: seq<byte>, off: nat, k: nat, m: nat)
    requires off + k + m <= |c| && off < |c|
    ensures Window(c, off, k) + c[off + k..off + k + m] == Window(c, off, k + m)
  {}

  lemma WindowEmpty(c: seq<byte>, off: nat)
    ensures Window(c, off, 0) == []
  {}

  lemma WindowShort(c: seq<byte>, off: nat, len: nat)
    ensures |Window(c, off, len)| <= len
  {}

  lemma WindowEnd(c: seq<byte>, off: nat, k: nat, len: nat)
    requires k <= len && (k > 0 ==> off + k <= |c|) && (k == len || off + k >= |c|)
    ensures Window(c, off, k) == Window(c, off, len)
  {}

  // What iread returns after an iwrite: the bytes just written, and elsewhere what was there before.
  lemma WriteThenRead(c: seq<byte>, off: nat, buf: seq<byte>, o: nat, n: nat)
    requires off <= |c|
    ensures Window(Overlay(c, off, buf), off, |buf|) == buf
    ensures o + n <= off || off + |buf| <= o ==> Window(Overlay(c, off, buf), o, n) == Window(c, o, n)
  {
    var d := Overlay(c, off, buf);
    if buf != [] { assert d[off..off + |buf|] == buf; }
    if off + |buf| <= o && o < |c| {
      assert o + n <= |c| ==> d[o..o + n] == c[o..o + n];
      assert o + n > |c| ==> d[o..] == c[o..];
    }
  }

  // One more reference to inode no, in slot j.
  ghost predicate Opened(t: seq<Inode>, t': seq<Inode>, s: Store, no: nat, j: nat)
    requires no < INUM
  {
    && j < |t|
    && if t[j].ref >= 1
       then t[j].no == no && t' == t[j := t[j].(ref := t[j].ref + 1)]
       else (forall l | 0 <= l < |t| && t[l].ref >= 1 :: t[l].no != no)
            && t' == t[j := Inode(no, 1, false, s.dis[no])]
  }

  class Fs {
    const disk: BlockDevice
    const inodes: array<Inode>
    var sb: SuperBlock
    ghost var own: map<nat, Slot>

    // Mounting: read the superblock, start with no inode open. The image is one that the
    // image builder made, or that this file system left behind.
    constructor (disk: BlockDevice, ghost own: map<nat, Slot>)
      requires disk.Valid()
      requires DecodeSuper(disk.Blocks()[SUPER_BLOCK][..16]) == SUPER
      requires Owned(ViewOf(disk.Blocks()), own) && SoundInodes(ViewOf(disk.Blocks()))
      modifies disk.cache
      ensures Valid() && fresh(inodes) && this.disk == disk && V() == old(ViewOf(disk.Blocks()))
      ensures forall j | 0 <= j < INODE_NUM :: inodes[j].ref == 0
    {
      this.disk := disk;
      this.own := own;
      inodes := new Inode[INODE_NUM](_ => Inode(0, 0, false, ZeroDinode()));
      new;
      var bytes := disk.Bread(16, SUPER_BLOCK, 0);
      sb := DecodeSuper(bytes);
    }

    // What every function below needs; holds even in the middle of an update.
    ghost predicate Raw()
      reads this, disk, disk.sectors, disk.cache
    {
      disk.Valid() && inodes.Length == INODE_NUM && sb == SUPER
    }

    ghost function V(): Store
      requires disk.sectors.Length == SECT_NUM
      reads disk, disk.sectors
    {
      ViewOf(disk.Blocks())
    }

    // The same, as a table of typed byte strings.
    ghost function F(): (f: seq<File>)
      requires disk.sectors.Length == SECT_NUM && SoundInodes(V())
      reads disk, disk.sectors
      ensures |f| == INUM
    {
      FilesOf(V())
    }

    ghost predicate Valid()
      reads this, disk, disk.sectors, disk.cache, inodes
    {
      && Raw()
      && Owned(V(), own)
      && SoundInodes(V())
      && TableOk(inodes[..], V())
    }

    predicate Live(ip: nat)
      reads inodes
    {
      ip < inodes.Length && inodes[ip].ref >= 1
    }

    // ---- words, dinodes and bits on disk ----

    method ReadWord(no: nat, i: nat) returns (w: u32)
      requires Raw() && no < BLK_NUM && i < NINDIRECT
      modifies disk.cache
      ensures Raw() && w == Word(disk.Blocks()[no], i)
    {
      var bytes := disk.Bread(4, no, 4 * i);
      w := Dec32(bytes);
    }

    method ReadEntry(b: nat, i: nat) returns (w: u32)
      requires Raw() && DATA_START <= b < BLK_NUM && i < NINDIRECT
      modifies disk.cache
      ensures Raw() && w == Word(V().data[b], i) && V() == old(V())
      ensures old(Valid()) ==> Valid()
    {
      w := ReadWord(b, i);
    }

    method Diread(no: nat) returns (di: Dinode)
      requires Raw() && no < INUM
      modifies disk.cache
      ensures Raw() && di == V().dis[no]
    {
      var bytes := disk.Bread(DINODE_SIZE, sb.istart + no / IPERBLK, InoOff(no));
      di := DecodeDinode(bytes);
    }

    method Diwrite(di: Dinode, no: nat)
      requires Raw() && no < INUM
      modifies disk.cache, disk.sectors
      ensures Raw() && V() == old(V()).(dis := old(V()).dis[no := di])
    {
      ViewDinode(disk.Blocks(), no, di);
      disk.Bwrite(EncodeDinode(di), sb.istart + no / IPERBLK, InoOff(no));
    }

    method Dialloc(typ: u32) returns (r: Outcome<nat>)
      requires Raw() && typ != TYPE_NONE
      modifies disk.cache, disk.sectors
      ensures Raw()
      ensures r.Abort? <==> forall i | 1 <= i < INUM :: old(V()).dis[i].typ != TYPE_NONE
      ensures r.Abort? ==> V() == old(V())
      ensures r.Done? ==> 0 < r.value < INUM && old(V()).dis[r.value].typ == TYPE_NONE
      ensures r.Done? ==> forall i | 1 <= i < r.value :: old(V()).dis[i].typ != TYPE_NONE
      ensures r.Done? ==> V() == old(V()).(dis := old(V()).dis[r.value := old(V()).dis[r.value].(typ := typ)])
    {
      for i := 1 to INUM
        invariant Raw() && V() == old(V())
        invariant forall l | 1 <= l < i :: V().dis[l].typ != TYPE_NONE
      {
        var dinode := Diread(i);
        if dinode.typ == TYPE_NONE {
          Diwrite(dinode.(typ := typ), i);
          return Done(i);
        }
      }
      return Abort;
    }

    method Difree(no: nat)
      requires Raw() && no < INUM
      modifies disk.cache, disk.sectors
      ensures Raw() && V() == old(V()).(dis := old(V()).dis[no := ZeroDinode()])
    {
      Diwrite(ZeroDinode(), no);
    }

    // Set the bit of b in its bitmap word w and clear the block.
    method TakeBlock(b: nat, w: u32)
      requires Raw() && DATA_START <= b < BLK_NUM && w == Word(disk.Blocks()[BITMAP_BLK], b / 32)
      modifies disk.cache, disk.sectors
      ensures Raw()
      ensures V() == Taken(old(V()), b)
    {
      var i, j := b / 32, b % 32;
      Pow2Values();
      BitUpdateFits(w, j, 32);
      ViewBit(disk.Blocks(), b, true, SetBit(w, j));
      disk.Bwrite(Enc32(SetBit(w, j)), sb.bitmap, 4 * i);
      ViewData(disk.Blocks(), b, ZERO_BLOCK);
      disk.Bzero(b);
    }

    method Balloc() returns (r: Outcome<u32>)
      requires Raw()
      requires forall b | 0 <= b < DATA_START :: V().bits[b]
      modifies disk.cache, disk.sectors
      ensures Raw()
      ensures r.Abort? <==> Full(old(V()))
      ensures r.Abort? ==> V() == old(V())
      ensures r.Done? ==> r.value < BLK_NUM && !old(V()).bits[r.value]
      ensures r.Done? ==> forall b | 0 <= b < r.value :: old(V()).bits[b]
      ensures r.Done? ==> V() == Taken(old(V()), r.value)
    {
      hide Word, Taken, DinodeAt;
      Pow2Values();
      for i := 0 to BLK_NUM / 32
        invariant Raw() && V() == old(V())
        invariant forall b | 0 <= b < 32 * i :: V().bits[b]
      {
        var w := ReadWord(sb.bitmap, i);
        if w != 0xffff_ffff {
          r := TakeFirst(i, w);
          return;
        } else {
          forall b | 32 * i <= b < 32 * (i + 1) ensures V().bits[b] { LargestWordBit(w, 32, b % 32); }
        }
      }
      return Abort;
    }

    // The first clear bit of the i-th word of the bitmap; there is one.
    method TakeFirst(i: nat, w: u32) returns (r: Outcome<u32>)
      requires Raw() && i < BLK_NUM / 32 && w == Word(disk.Blocks()[BITMAP_BLK], i) && w != 0xffff_ffff
      requires forall b | 0 <= b < DATA_START :: V().bits[b]
      requires forall b | 0 <= b < 32 * i :: V().bits[b]
      modifies disk.cache, disk.sectors
      ensures Raw() && r.Done?
      ensures r.value < BLK_NUM && !old(V()).bits[r.value] && forall b | 0 <= b < r.value :: old(V()).bits[b]
      ensures V() == Taken(old(V()), r.value)
    {
      hide Taken, DinodeAt, Word, Pow2, ZeroDinode;
      Pow2Values();
      ghost var c := ClearBitExists(w, 32);
      var j := 0;
      while j < 32 && Bit(w, j)
        invariant j <= c && forall b | 0 <= b < j :: Bit(w, b)
        decreases c - j
      {
        j := j + 1;
      }
      var b := i * 32 + j;
      forall x | 32 * i <= x < b ensures V().bits[x] { assert Bit(w, x % 32); }
      assert !V().bits[b];
      TakeBlock(b, w);
      return Done(b);
    }

    method Bfree(b: nat)
      requires Raw() && DATA_START <= b < BLK_NUM
      modifies disk.cache, disk.sectors
      ensures Raw() && V() == old(V()).(bits := old(V()).bits[b := false])
    {
      var i, j := b / 32, b % 32;
      var w := ReadWord(sb.bitmap, i);
      Pow2Values();
      BitUpdateFits(w, j, 32);
      ViewBit(disk.Blocks(), b, false, ClearBit(w, j));
      disk.Bwrite(Enc32(ClearBit(w, j)), sb.bitmap, 4 * i);
    }

    // ---- the inode table ----

    // The slot that holds inode no, if any, gains a reference; otherwise a free slot is filled from disk.
    method Iget(no: nat) returns (r: Outcome<nat>)
      requires Valid() && 0 < no < INUM && F()[no].typ != TYPE_NONE
      modifies inodes, disk.cache
      ensures Valid() && V() == old(V()) && F() == old(F())
      ensures r.Abort? ==> inodes[..] == old(inodes[..])
      ensures r.Abort? <==> forall j | 0 <= j < INODE_NUM :: old(inodes[j].ref) >= 1 && old(inodes[j].no) != no
      ensures r.Done? ==> Opened(old(inodes[..]), inodes[..], V(), no, r.value)
    {
      hide ViewOf, Valid, FilesOf, Opened;
      Table();
      for i := 0 to INODE_NUM
        invariant forall j | 0 <= j < i :: !(inodes[j].ref >= 1 && inodes[j].no == no)
      {
        if inodes[i].ref >= 1 && inodes[i].no == no {
          Again(i, no);
          return Done(i);
        }
      }
      for i := 0 to INODE_NUM
        invariant forall j | 0 <= j < i :: inodes[j].ref >= 1
      {
        if inodes[i].ref == 0 {
          Load(i, no);
          return Done(i);
        }
      }
      return Abort;
    }

    lemma Table()
      requires Valid()
      ensures inodes.Length == INODE_NUM
    {}

    // The slot that holds the inode already counts one more.
    method Again(i: nat, no: nat)
      requires Valid() && Live(i) && inodes[i].no == no < INUM
      modifies inodes
      ensures Valid() && V() == old(V()) && Opened(old(inodes[..]), inodes[..], V(), no, i)
    {
      hide ViewOf, Owned, SoundInodes;
      inodes[i] := inodes[i].(ref := inodes[i].ref + 1);
    }

    // A free slot takes the inode in.
    method Load(i: nat, no: nat)
      requires Valid() && 0 < no < INUM && F()[no].typ != TYPE_NONE && i < inodes.Length && inodes[i].ref == 0
      requires forall j | 0 <= j < INODE_NUM :: !(inodes[j].ref >= 1 && inodes[j].no == no)
      modifies inodes, disk.cache
      ensures Valid() && V() == old(V()) && Opened(old(inodes[..]), inodes[..], V(), no, i)
    {
      hide ViewOf, Owned, SoundInodes;
      var di := Diread(no);
      inodes[i] := Inode(no, 1, false, di);
    }

    method Idup(ip: nat)
      requires Valid() && Live(ip)
      modifies inodes
      ensures Valid() && inodes[..] == old(inodes[..])[ip := old(inodes[ip]).(ref := old(inodes[ip]).ref + 1)]
    {
      inodes[ip] := inodes[ip].(ref := inodes[ip].ref + 1);
    }

    method Iupdate(ip: nat)
      requires Raw() && ip < INODE_NUM && inodes[ip].no < INUM
      modifies disk.cache, disk.sectors
      ensures Raw() && V() == old(V()).(dis := old(V()).dis[inodes[ip].no := inodes[ip].dinode])
    {
      Diwrite(inodes[ip].dinode, inodes[ip].no);
    }

    // dialloc on a consistent file system: a free inode becomes an empty file.
    method Ialloc(typ: u32) returns (r: Outcome<nat>)
      requires Valid() && typ != TYPE_NONE
      modifies disk.cache, disk.sectors
      ensures Raw()
      ensures r.Abort? <==> forall i | 1 <= i < INUM :: old(F())[i].typ != TYPE_NONE
      ensures r.Done? ==> Valid() && 0 < r.value < INUM
      ensures r.Done? ==> old(F())[r.value].typ == TYPE_NONE
      ensures r.Done? ==> F() == old(F())[r.value := File(typ, 0, [])]
      ensures r.Done? ==> forall j | 0 <= j < INODE_NUM && inodes[j].ref >= 1 :: inodes[j].no != r.value
    {
      hide ViewOf, Owned;
      ghost var s, f := V(), F();
      assert forall i | 1 <= i < INUM :: f[i].typ == s.dis[i].typ;
      r := Dialloc(typ);
      if r.Done? {
        TypedFiles(s, own, r.value, typ);
        hide FilesOf, SoundInodes;
        TableTyped(inodes[..], s, V(), r.value);
      }
    }

    // ---- the block map ----

    // A block for address k of the inode, on disk too.
    method GrowSlot(ip: nat, k: nat) returns (r: Outcome<u32>)
      requires Valid() && Live(ip) && k <= NDIRECT && inodes[ip].dinode.addrs[k] == 0
      modifies this`own, inodes, disk.cache, disk.sectors
      ensures Raw() && SameRefs(old(inodes[..]), inodes[..])
      ensures r.Abort? ==> Full(V())
      ensures r.Done? ==> Valid() && Grew(old(V()), V(), inodes[ip].no)
      ensures r.Done? ==> r.value != 0 && inodes[ip].dinode.addrs[k] == r.value
    {
      hide ViewOf, Owned, SoundInodes, Grew;
      ghost var s, ino := V(), inodes[ip].no;
      ReservedBlocks(s, own);
      r := Balloc();
      if r.Abort? { return; }
      var b, di := r.value, inodes[ip].dinode;
      inodes[ip] := inodes[ip].(dinode := di.(addrs := di.addrs[k := b]));
      Iupdate(ip);
      GrowAddr(s, own, ino, k, b);
      own := own[b := Slot(ino, k)];
    }

    // A block for entry n of the indirect block.
    method GrowIndirect(ip: nat, n: nat) returns (r: Outcome<u32>)
      requires Valid() && Live(ip) && n < NINDIRECT
      requires inodes[ip].dinode.addrs[NDIRECT] != 0 && Ptr(V(), inodes[ip].no, NDIRECT + 1 + n) == 0
      modifies this`own, disk.cache, disk.sectors
      ensures Raw()
      ensures r.Abort? ==> Full(V())
      ensures r.Done? ==> Valid() && Grew(old(V()), V(), inodes[ip].no)
      ensures r.Done? ==> r.value != 0 && Ptr(V(), inodes[ip].no, NDIRECT + 1 + n) == r.value
    {
      hide ViewOf, Owned, SoundInodes, Grew, Ptr;
      ghost var s, ino := V(), inodes[ip].no;
      ReservedBlocks(s, own);
      r := Balloc();
      if r.Abort? { return; }
      var b := r.value;
      var ind := inodes[ip].dinode.addrs[NDIRECT];
      GrowEntry(s, own, ino, n, b);
      WriteData(Enc32(b), ind, 4 * n);
      own := own[b := Slot(ino, NDIRECT + 1 + n)];
    }

    // bwrite to a data block
    method WriteData(src: seq<byte>, b: nat, off: nat)
      requires Raw() && DATA_START <= b < BLK_NUM && off + |src| <= BLK_SIZE
      modifies disk.cache, disk.sectors
      ensures Raw() && V() == old(V()).(data := old(V()).data[b := Splice(old(V()).data[b], off, src)])
    {
      ViewData(disk.Blocks(), b, Splice(disk.Blocks()[b], off, src));
      disk.Bwrite(src, b, off);
    }

    // The block number of the no-th block of file ip, allocating what is missing.
    method Iwalk(ip: nat, no: nat) returns (r: Outcome<u32>)
      requires Valid() && Live(ip)
      modifies this`own, inodes, disk.cache, disk.sectors
      ensures SameRefs(old(inodes[..]), inodes[..]) && Raw()
      ensures no >= MAX_BLKS ==> r.Abort?
      ensures r.Abort? && no < MAX_BLKS ==> Full(V())
      ensures r.Done? ==> Valid() && no < MAX_BLKS && Grew(old(V()), V(), inodes[ip].no)
      ensures r.Done? ==> r.value != 0 && r.value == DataPtr(V(), inodes[ip].no, no)
    {
      hide ViewOf, Valid, SoundInodes, Grew, Owned, TableOk;
      Mirror(ip);
      ghost var s, ino := V(), inodes[ip].no;
      GrewReflexive(s, ino);
      if no < NDIRECT {
        if inodes[ip].dinode.addrs[no] == 0 {
          r := GrowSlot(ip, no);
          if r.Abort? { return; }
          Mirror(ip);
        }
        return Done(inodes[ip].dinode.addrs[no]);
      }
      var n := no - NDIRECT;
      if n < NINDIRECT {
        if inodes[ip].dinode.addrs[NDIRECT] == 0 {
          r := GrowSlot(ip, NDIRECT);
          if r.Abort? { return; }
        }
        ghost var t := V();
        Mirror(ip);
        IndirectInRange(t, own, ino);
        var indirect := ReadEntry(inodes[ip].dinode.addrs[NDIRECT], n);
        if indirect == 0 {
          r := GrowIndirect(ip, n);
          if r.Abort? { return; }
          GrewTransitive(s, t, V(), ino);
          return;
        }
        return Done(indirect);
      }
      return Abort;
    }

    // ---- reading and writing ----

    function Size(ip: nat): nat
      requires ip < inodes.Length
      reads inodes
    {
      inodes[ip].dinode.size
    }

    // The bytes of data block b.
    method ReadData(size: nat, b: nat, off: nat) returns (dst: seq<byte>)
      requires Raw() && DATA_START <= b < BLK_NUM && off + size <= BLK_SIZE
      modifies disk.cache
      ensures Raw() && dst == V().data[b][off..off + size] && V() == old(V())
      ensures old(Valid()) ==> Valid()
    {
      dst := disk.Bread(size, b, off);
    }

    // The block under byte pos, while a file is read that had contents c at the start.
    method WalkTo(ip: nat, pos: nat, ghost s: Store, ghost c: seq<byte>, ghost nodes: seq<Inode>)
      returns (w: Outcome<u32>)
      requires Valid() && Live(ip) && Size(ip) == |c| && |nodes| == INODE_NUM
      requires Grew(s, V(), inodes[ip].no) && SameRefs(nodes, inodes[..])
      modifies this`own, inodes, disk.cache, disk.sectors
      ensures SameRefs(nodes, inodes[..]) && Raw() && Live(ip) && inodes[ip].no == old(inodes[ip].no)
      ensures w.Done? ==> Valid() && Size(ip) == |c| && pos < MAX_FILE
      ensures w.Done? ==> Grew(s, V(), inodes[ip].no) && w.value == DataPtr(V(), inodes[ip].no, pos / BLK_SIZE) != 0
      ensures w.Abort? ==> Full(V()) || pos >= MAX_FILE
      ensures pos >= MAX_FILE ==> w.Abort?
    {
      hide ViewOf, Valid, Raw, Grew, DataPtr, SameRefs, Contents, Full, Owned, SoundInodes, TableOk, FilesOf;
      Mirror(ip);
      ghost var t, tt, ino := V(), inodes[..], inodes[ip].no;
      w := Iwalk(ip, pos / BLK_SIZE);
      SameRefsTransitive(nodes, tt, inodes[..]);
      LiveStays(tt, inodes[..], ip);
      if w.Done? {
        GrewTransitive(s, t, V(), ino);
        GrewSize(t, ino, V());
        Mirror(ip);
      }
    }

    method Iread(ip: nat, off: u32, len: u32) returns (r: Outcome<seq<byte>>)
      requires Valid() && Live(ip)
      modifies this`own, inodes, disk.cache, disk.sectors
      ensures SameRefs(old(inodes[..]), inodes[..]) && Raw()
      ensures r.Done? ==> Valid() && Grew(old(V()), V(), inodes[ip].no)
      ensures r.Done? ==> F() == old(F()) && r.value == Window(old(F())[inodes[ip].no].data, off, len)
      ensures r.Abort? ==> Full(V()) || off + |Window(old(F())[inodes[ip].no].data, off, len)| >= MAX_FILE
      ensures off + |Window(old(F())[inodes[ip].no].data, off, len)| >= MAX_FILE ==> r.Abort?
    {
      hide ViewOf, Valid, Raw, Grew, DataPtr, SameRefs, Contents, Full, Owned, SoundInodes, TableOk, Window, FilesOf;
      Mirror(ip);
      ghost var s, ino := V(), inodes[ip].no;
      ghost var c := OldContents(ip);
      GrewReflexive(s, ino);
      SameRefsReflexive(inodes[..]);
      var w := WalkTo(ip, off, s, c, inodes[..]);
      if w.Abort? { return Abort; }
      var blkno, blkoff := w.value, off % BLK_SIZE;
      var remaining: nat, bytesRead: nat := len, 0;
      var buf := [];
      WindowEmpty(c, off);
      while remaining > 0 && off + bytesRead < Size(ip)
        invariant Valid() && Raw() && Live(ip) && inodes[ip].no == ino && SameRefs(old(inodes[..]), inodes[..])
        invariant Grew(s, V(), ino) && Size(ip) == |c|
        invariant off + bytesRead < MAX_FILE && bytesRead + remaining == len
        invariant blkno == DataPtr(V(), ino, (off + bytesRead) / BLK_SIZE) != 0
        invariant blkoff == (off + bytesRead) % BLK_SIZE
        invariant |buf| == bytesRead && buf == Window(c, off, bytesRead)
        invariant bytesRead > 0 ==> off + bytesRead <= |c|
      {
        var bytesToRead := if remaining < BLK_SIZE - blkoff then remaining else BLK_SIZE - blkoff;
        bytesToRead := if bytesToRead < Size(ip) - off - bytesRead then bytesToRead else Size(ip) - off - bytesRead;
        ChunkIs(s, ino, c, ip, off + bytesRead, bytesToRead);
        var chunk := ReadData(bytesToRead, blkno, blkoff);
        WindowGrow(c, off, bytesRead, bytesToRead);
        buf := buf + chunk;
        bytesRead := bytesRead + bytesToRead;
        remaining := remaining - bytesToRead;
        w := WalkTo(ip, off + bytesRead, s, c, old(inodes[..]));
        if w.Abort? {
          if off + bytesRead >= MAX_FILE { WindowEnd(c, off, bytesRead, len); }
          return Abort;
        }
        blkno := w.value;
        blkoff := (off + bytesRead) % BLK_SIZE;
      }
      WindowEnd(c, off, bytesRead, len);
      Mirror(ip);
      GrewFiles(s, V(), ino);
      return Done(buf);
    }

    // One turn of the loop of iwrite: src, which ends in its block, goes to pos; done lies before it.
    method WriteChunk(ip: nat, pos: nat, src: seq<byte>, ghost s: Store, ghost off: nat, ghost done: seq<byte>,
        ghost nodes: seq<Inode>)
      returns (w: Outcome<()>)
      requires Valid() && Live(ip) && pos == off + |done| && |nodes| == INODE_NUM && SameRefs(nodes, inodes[..])
      requires 0 < |src| <= BLK_SIZE - pos % BLK_SIZE && Wrote(s, V(), inodes[ip].no, off, done)
      modifies this`own, inodes, disk.cache, disk.sectors
      ensures Raw() && SameRefs(nodes, inodes[..]) && Live(ip) && inodes[ip].no == old(inodes[ip].no) < INUM
      ensures w.Abort? ==> Full(V()) || pos >= MAX_FILE
      ensures w.Done? ==> Valid() && pos + |src| <= MAX_FILE && Wrote(s, V(), inodes[ip].no, off, done + src)
    {
      hide ViewOf, Valid, Raw, Grew, DataPtr, SameRefs, Full, Owned, SoundInodes, TableOk, Wrote;
      Mirror(ip);
      var block_no, offset := pos / BLK_SIZE, pos % BLK_SIZE;
      ghost var t, tt, ino := V(), inodes[..], inodes[ip].no;
      var b := Iwalk(ip, block_no);
      SameRefsTransitive(nodes, tt, inodes[..]);
      LiveStays(tt, inodes[..], ip);
      if b.Abort? { return Abort; }
      ghost var u := V();
      Mirror(ip);
      DataPtrInRange(u, own, ino, block_no);
      WriteFileData(ip, src, b.value, block_no, offset);
      WroteMore(s, t, u, V(), own, ino, off, done, src, b.value);
      return Done(());
    }

    // The end of iwrite: the file grows to where the writing stopped, if it has not been longer.
    method EndWrite(ip: nat, pos: nat, ghost s: Store, ghost off: nat, ghost buf: seq<byte>, ghost nodes: seq<Inode>)
      requires Valid() && Live(ip) && pos == off + |buf| <= MAX_FILE && SoundInodes(s)
      requires off <= s.dis[inodes[ip].no].size && s.dis[inodes[ip].no].typ != TYPE_NONE
      requires Wrote(s, V(), inodes[ip].no, off, buf) && SameRefs(nodes, inodes[..]) && |nodes| == INODE_NUM
      modifies inodes, disk.cache, disk.sectors
      ensures Valid() && Raw() && SameRefs(nodes, inodes[..]) && inodes[ip].no == old(inodes[ip].no) < INUM
      ensures FileWritten(s, V(), inodes[ip].no, off, buf)
      ensures var f, ino := FilesOf(s), inodes[ip].no;
        off <= |f[ino].data| && F() == f[ino := f[ino].(data := Overlay(f[ino].data, off, buf))]
    {
      hide ViewOf, Valid, Raw, Grew, DataPtr, SameRefs, Full, Owned, SoundInodes, TableOk, Wrote, FileWritten, Overlay;
      ghost var ino := inodes[ip].no;
      Mirror(ip);
      WroteSize(s, V(), ino, off, buf);
      SetSize(s, V(), own, ino, off, buf);
      if pos > Size(ip) {
        ghost var tt := inodes[..];
        SetFileSize(ip, pos);
        SameRefsTransitive(nodes, tt, inodes[..]);
        LiveStays(tt, inodes[..], ip);
      }
      Mirror(ip);
      WrittenFiles(s, V(), ino, off, buf);
    }

    // Done(-1) when off lies beyond the end of the file, otherwise Done(|buf|).
    method Iwrite(ip: nat, off: u32, buf: seq<byte>) returns (r: Outcome<int>)
      requires Valid() && Live(ip)
      modifies this`own, inodes, disk.cache, disk.sectors
      ensures SameRefs(old(inodes[..]), inodes[..]) && Raw()
      ensures r.Done? ==> Valid()
      ensures old(Size(ip)) < off ==>
        r == Done(-1) && V() == old(V()) && F() == old(F()) && inodes[..] == old(inodes[..])
      ensures r.Done? && off <= old(Size(ip)) ==>
        r.value == |buf| && off + |buf| <= MAX_FILE && FileWritten(old(V()), V(), inodes[ip].no, off, buf)
      ensures r.Done? && off <= old(Size(ip)) ==> var f, ino := old(F()), inodes[ip].no;
        off <= |f[ino].data| && F() == f[ino := f[ino].(data := Overlay(f[ino].data, off, buf))]
      ensures r.Abort? ==> Full(V()) || off + |buf| > MAX_FILE
    {
      hide ViewOf, Valid, Raw, Grew, DataPtr, SameRefs, Full, Owned, SoundInodes, TableOk, Wrote, FileWritten, Overlay;
      Mirror(ip);
      SameRefsReflexive(inodes[..]);
      if off > Size(ip) { return Done(-1); }
      ghost var s, ino := V(), inodes[ip].no;
      var pos: nat, len: nat, rest := off, |buf|, buf;
      WroteNothing(s, ino, off);
      assert buf[..0] == [];
      while len > 0
        invariant Valid() && Raw() && Live(ip) && inodes[ip].no == ino && SameRefs(old(inodes[..]), inodes[..])
        invariant pos + len == off + |buf| && pos <= MAX_FILE
        invariant off <= pos && rest == buf[pos - off..]
        invariant Wrote(s, V(), ino, off, buf[..pos - off])
        decreases len
      {
        ghost var done := buf[..pos - off];
        var bytes := BLK_SIZE - pos % BLK_SIZE;
        if bytes > len { bytes := len; }
        var w := WriteChunk(ip, pos, rest[..bytes], s, off, done, old(inodes[..]));
        if w.Abort? { return Abort; }
        assert done + rest[..bytes] == buf[..pos + bytes - off];
        pos := pos + bytes;
        rest := rest[bytes..];
        len := len - bytes;
      }
      assert buf[..pos - off] == buf;
      EndWrite(ip, pos, s, off, buf, old(inodes[..]));
      return Done(pos - off);
    }

    // bwrite into a block of file ip
    method WriteFileData(ip: nat, src: seq<byte>, b: nat, n: nat, off: nat)
      requires Valid() && Live(ip) && n < MAX_BLKS && off + |src| <= BLK_SIZE
      requires b == DataPtr(V(), inodes[ip].no, n) && DATA_START <= b < BLK_NUM
      modifies disk.cache, disk.sectors
      ensures Valid() && Raw()
      ensures V() == old(V()).(data := old(V()).data[b := Splice(old(V()).data[b], off, src)])
    {
      hide ViewOf, Owned, Ptr, ByteAt, BytesWritten, OnlyGrows;
      WriteBlock(V(), own, inodes[ip].no, n, off, src);
      WriteData(src, b, off);
    }

    // The file now ends at pos, on disk too.
    method SetFileSize(ip: nat, pos: u32)
      requires Valid() && Live(ip)
      requires inodes[ip].no < INUM
      requires Owned(Resized(V(), inodes[ip].no, pos), own) && SoundInodes(Resized(V(), inodes[ip].no, pos))
      modifies inodes, disk.cache, disk.sectors
      ensures Valid() && Raw() && SameRefs(old(inodes[..]), inodes[..])
      ensures V() == Resized(old(V()), inodes[ip].no, pos)
    {
      hide ViewOf, Owned, SoundInodes;
      inodes[ip] := inodes[ip].(dinode := inodes[ip].dinode.(size := pos));
      Iupdate(ip);
    }

    // iadddev's update of an open inode.
    method SetDevice(ip: nat, id: u32)
      requires Valid() && Live(ip)
      modifies inodes, disk.cache, disk.sectors
      ensures Valid() && SameRefs(old(inodes[..]), inodes[..]) && inodes[ip].no < INUM
      ensures F() == old(F())[inodes[ip].no := old(F())[inodes[ip].no].(device := id)]
    {
      hide ViewOf, Owned, SoundInodes, FilesOf;
      Mirror(ip);
      DeviceFiles(V(), own, inodes[ip].no, id);
      inodes[ip] := inodes[ip].(dinode := inodes[ip].dinode.(device := id));
      Iupdate(ip);
    }

    // ---- truncation, and the last close ----

    // if (p) bfree(p)
    method FreeOne(ghost s: Store, ghost ino: nat, ghost done: set<nat>, ghost k: nat, p: nat)
      requires Raw() && ino < INUM && k < NSLOT && k !in done && Owned(s, own)
      requires V() == s.(bits := FreedBits(s, own, ino, done)) && p == Ptr(s, ino, k)
      modifies disk.cache, disk.sectors
      ensures Raw() && V() == s.(bits := FreedBits(s, own, ino, done + {k}))
    {
      hide ViewOf, Owned, Ptr, FreedBits;
      FreeSlot(s, own, ino, done, k);
      if p != 0 {
        Bfree(p);
      }
    }

    method Itrunc(ip: nat)
      requires Valid() && Live(ip)
      modifies this`own, inodes, disk.cache, disk.sectors
      ensures Valid() && SameRefs(old(inodes[..]), inodes[..])
      ensures Truncated(old(V()), V(), inodes[ip].no)
      ensures F() == old(F())[inodes[ip].no := old(F())[inodes[ip].no].(data := [])]
      ensures OthersSame(old(inodes[..]), inodes[..], ip)
    {
      hide ViewOf, Owned, SoundInodes, FreedBits, UpTo, Truncated, Emptied, TableOk, FilesOf;
      Mirror(ip);
      ghost var s, ino, t := V(), inodes[ip].no, inodes[..];
      FreeNothing(s, own, ino, {}, {});
      NothingFreed(s, own, ino);
      for i := 0 to NDIRECT
        invariant Raw() && Live(ip) && SameRefs(t, inodes[..]) && OthersSame(t, inodes[..], ip) && own == old(own)
        invariant V() == s.(bits := FreedBits(s, own, ino, UpTo(i)))
        invariant inodes[ip].dinode == s.dis[ino].(addrs := inodes[ip].dinode.addrs)
        invariant forall k | 0 <= k <= NDIRECT :: inodes[ip].dinode.addrs[k] == if k < i then 0 else s.dis[ino].addrs[k]
      {
        FreeOne(s, ino, UpTo(i), i, inodes[ip].dinode.addrs[i]);
        assert UpTo(i) + {i} == UpTo(i + 1);
        if inodes[ip].dinode.addrs[i] != 0 {
          inodes[ip] := inodes[ip].(dinode := inodes[ip].dinode.(addrs := inodes[ip].dinode.addrs[i := 0]));
        }
      }
      ItruncIndirect(ip, s);
      inodes[ip] := inodes[ip].(dinode := inodes[ip].dinode.(size := 0));
      Iupdate(ip);
      TruncDone(s, own, ino, inodes[ip].dinode, V());
      own := OwnWithout(own, ino);
      TableTruncated(t, inodes[..], s, V(), ip);
      TruncatedFiles(s, V(), ino);
    }

    // The second half of itrunc: the indirect block and everything it names.
    method ItruncIndirect(ip: nat, ghost s: Store)
      requires Raw() && Live(ip) && inodes[ip].no < INUM && Owned(s, own)
      requires V() == s.(bits := FreedBits(s, own, inodes[ip].no, UpTo(NDIRECT)))
      requires inodes[ip].dinode.addrs[NDIRECT] == s.dis[inodes[ip].no].addrs[NDIRECT]
      modifies inodes, disk.cache, disk.sectors
      ensures Raw() && V() == s.(bits := FreedBits(s, own, inodes[ip].no, UpTo(NSLOT)))
      ensures inodes[..] == old(inodes[..])[ip := old(inodes[ip]).(dinode :=
        old(inodes[ip]).dinode.(addrs := old(inodes[ip]).dinode.addrs[NDIRECT := 0]))]
    {
      hide ViewOf, Owned, FreedBits, UpTo;
      ghost var ino := inodes[ip].no;
      ghost var skip := UpTo(NDIRECT);
      if inodes[ip].dinode.addrs[NDIRECT] != 0 {
        var indirect := inodes[ip].dinode.addrs[NDIRECT];
        IndirectInRange(s, own, ino);
        assert UpTo(NDIRECT + 1) - {NDIRECT} == skip;
        for i := 0 to NINDIRECT
          invariant Raw() && V() == s.(bits := FreedBits(s, own, ino, UpTo(NDIRECT + 1 + i) - {NDIRECT}))
          invariant inodes[..] == old(inodes[..])
        {
          var block := ReadEntry(indirect, i);
          FreeOne(s, ino, UpTo(NDIRECT + 1 + i) - {NDIRECT}, NDIRECT + 1 + i, block);
          assert UpTo(NDIRECT + 1 + i) - {NDIRECT} + {NDIRECT + 1 + i} == UpTo(NDIRECT + 1 + i + 1) - {NDIRECT};
        }
        FreeOne(s, ino, UpTo(NSLOT) - {NDIRECT}, NDIRECT, inodes[ip].dinode.addrs[NDIRECT]);
        assert UpTo(NSLOT) - {NDIRECT} + {NDIRECT} == UpTo(NSLOT);
        inodes[ip] := inodes[ip].(dinode := inodes[ip].dinode.(addrs := inodes[ip].dinode.addrs[NDIRECT := 0]));
      } else {
        FreeNothing(s, own, ino, skip, UpTo(NSLOT));
        assert inodes[ip].dinode.addrs[NDIRECT := 0] == inodes[ip].dinode.addrs;
      }
    }

    method Iclose(ip: nat)
      requires Valid() && Live(ip)
      modifies this`own, inodes, disk.cache, disk.sectors
      ensures Valid()
      ensures forall j | 0 <= j < INODE_NUM && j != ip :: inodes[j] == old(inodes[j])
      ensures inodes[ip].ref == old(inodes[ip]).ref - 1
      ensures inodes[ip].no == old(inodes[ip]).no && inodes[ip].del == old(inodes[ip]).del
      ensures if old(inodes[ip].ref) == 1 && old(inodes[ip].del) then Deleted(old(V()), V(), inodes[ip].no)
        else V() == old(V())
      ensures F() == if old(inodes[ip].ref) == 1 && old(inodes[ip].del) then old(F())[inodes[ip].no := NO_FILE]
        else old(F())
    {
      hide ViewOf, Owned, SoundInodes, Truncated, Deleted, FilesOf;
      if inodes[ip].ref == 1 && inodes[ip].del {
        Drop(ip);
      } else {
        inodes[ip] := inodes[ip].(ref := inodes[ip].ref - 1);
      }
    }

    // The last reference to an unlinked inode goes, and with it the blocks and the inode itself.
    method Drop(ip: nat)
      requires Valid() && Live(ip) && inodes[ip].ref == 1
      modifies this`own, inodes, disk.cache, disk.sectors
      ensures Valid() && inodes[ip].no < INUM && Deleted(old(V()), V(), inodes[ip].no)
      ensures F() == old(F())[inodes[ip].no := NO_FILE]
      ensures forall j | 0 <= j < INODE_NUM && j != ip :: inodes[j] == old(inodes[j])
      ensures inodes[ip].ref == 0 && inodes[ip].no == old(inodes[ip]).no && inodes[ip].del == old(inodes[ip]).del
    {
      hide ViewOf, Owned, SoundInodes, Truncated, SameRefs, TableOk, Deleted, FilesOf;
      ghost var s, t, ino := V(), inodes[..], inodes[ip].no;
      Mirror(ip);
      Itrunc(ip);
      LiveStays(t, inodes[..], ip);
      ghost var u, tt := V(), inodes[..];
      Mirror(ip);
      Difree(inodes[ip].no);
      inodes[ip] := inodes[ip].(ref := inodes[ip].ref - 1);
      DeleteOwned(s, u, own, ino);
      DeletedFiles(s, V(), ino);
      TableDropped(tt, inodes[..], u, V(), ip);
    }

    // The file as it stands.
    ghost function OldContents(ip: nat): (c: seq<byte>)
      requires Valid() && Live(ip)
      reads this, disk, disk.sectors, disk.cache, inodes
      ensures c == Contents(V(), inodes[ip].no) == F()[inodes[ip].no].data
        && |c| == V().dis[inodes[ip].no].size <= MAX_FILE
    {
      Contents(V(), inodes[ip].no)
    }

    lemma Sound()
      requires Valid()
      ensures Raw() && disk.sectors.Length == SECT_NUM && inodes.Length == INODE_NUM && SoundInodes(V())
    {}

    // What Valid says about one slot in use.
    lemma Mirror(ip: nat)
      requires Valid() && Live(ip)
      ensures Raw() && disk.sectors.Length == SECT_NUM && inodes.Length == INODE_NUM
      ensures Owned(V(), own) && SoundInodes(V()) && TableOk(inodes[..], V())
      ensures 0 < inodes[ip].no < INUM && inodes[ip].dinode == V().dis[inodes[ip].no]
      ensures inodes[ip].dinode.typ != TYPE_NONE && inodes[ip].dinode.size <= MAX_FILE
    {}

    lemma ChunkIs(s: Store, ino: nat, c: seq<byte>, ip: nat, pos: nat, m: nat)
      requires Valid() && Live(ip) && inodes[ip].no == ino && Grew(s, V(), ino)
      requires s.dis[ino].size <= MAX_FILE && c == Contents(s, ino)
      requires pos < MAX_FILE && pos % BLK_SIZE + m <= BLK_SIZE && pos + m <= |c|
      requires DataPtr(V(), ino, pos / BLK_SIZE) != 0
      ensures DATA_START <= DataPtr(V(), ino, pos / BLK_SIZE) < BLK_NUM
      ensures V().data[DataPtr(V(), ino, pos / BLK_SIZE)][pos % BLK_SIZE..pos % BLK_SIZE + m] == c[pos..pos + m]
    {
      hide Owned, ByteAt, DataPtr, ViewOf;
      ContentsSame(s, V(), ino);
      ReadChunk(V(), own, ino, pos, m);
    }
  }

  lemma ReservedBlocks(s: Store, own: map<nat, Slot>)
    requires Owned(s, own)
    ensures forall b | 0 <= b < DATA_START :: s.bits[b]
  {}

  lemma GrewReflexive(s: Store, ino: nat)
    requires ino < INUM
    ensures Grew(s, s, ino)
  {}

  lemma IndirectInRange(s: Store, own: map<nat, Slot>, ino: nat)
    requires Owned(s, own) && ino < INUM && s.dis[ino].addrs[NDIRECT] != 0
    ensures DATA_START <= s.dis[ino].addrs[NDIRECT] < BLK_NUM
  {
    assert s.dis[ino].addrs[NDIRECT] == Ptr(s, ino, NDIRECT);
  }

  lemma SameRefsReflexive(t: seq<Inode>)
    ensures SameRefs(t, t)
  {}

  lemma SameRefsTransitive(t: seq<Inode>, u: seq<Inode>, v: seq<Inode>)
    requires SameRefs(t, u) && SameRefs(u, v)
    ensures SameRefs(t, v)
  {}

  lemma LiveStays(t: seq<Inode>, t': seq<Inode>, ip: nat)
    requires SameRefs(t, t') && ip < |t|
    ensures ip < |t'| && t'[ip].ref == t[ip].ref && t'[ip].no == t[ip].no && t'[ip].del == t[ip].del
  {}

  lemma GrewSize(s: Store, ino: nat, s': Store)
    requires ino < INUM && Grew(s, s', ino)
    ensures s'.dis[ino].size == s.dis[ino].size && s'.dis[ino].typ == s.dis[ino].typ
  {
    assert SameHeader(s, s', ino);
  }

  // Only slot ip differs.
  ghost predicate OthersSame(t: seq<Inode>, t': seq<Inode>, ip: nat) {
    |t'| == |t| && forall j | 0 <= j < |t| && j != ip :: t'[j] == t[j]
  }

  lemma NothingFreed(s: Store, own: map<nat, Slot>, ino: nat)
    ensures s == s.(bits := FreedBits(s, own, ino, UpTo(0)))
  {
    assert FreedBits(s, own, ino, UpTo(0)) == s.bits;
  }

  lemma WroteSize(s: Store, s': Store, ino: nat, off: nat, buf: seq<byte>)
    requires ino < INUM && Wrote(s, s', ino, off, buf)
    ensures s'.dis[ino].size == s.dis[ino].size && s'.dis[ino].typ == s.dis[ino].typ
  {
    assert SameHeader(s, s', ino);
  }

  lemma TruncDone(s: Store, own: map<nat, Slot>, ino: nat, di: Dinode, s': Store)
    requires ino < INUM && Owned(s, own) && SoundInodes(s) && s.dis[ino].typ != TYPE_NONE
    requires di == s.dis[ino].(size := 0, addrs := di.addrs)
    requires forall k | 0 <= k <= NDIRECT :: di.addrs[k] == 0
    requires s' == s.(bits := FreedBits(s, own, ino, UpTo(NSLOT)), dis := s.dis[ino := di])
    ensures Owned(s', OwnWithout(own, ino)) && SoundInodes(s') && Truncated(s, s', ino)
  {
    hide Owned, Emptied;
    TruncOwned(s, own, ino, UpTo(NSLOT), di);
    assert di.addrs == NoAddrs();
  }

  lemma TableTruncated(t: seq<Inode>, t': seq<Inode>, s: Store, s': Store, ip: nat)
    requires TableOk(t, s) && ip < |t| && t[ip].ref >= 1 && OthersSame(t, t', ip)
    requires t'[ip].no == t[ip].no && t'[ip].ref == t[ip].ref
    requires t'[ip].dinode.typ == t[ip].dinode.typ && s'.dis == s.dis[t[ip].no := t'[ip].dinode]
    ensures TableOk(t', s')
  {}

  lemma TableDropped(tt: seq<Inode>, t': seq<Inode>, u: Store, s': Store, ip: nat)
    requires TableOk(tt, u) && ip < |tt| && tt[ip].ref >= 1 && tt[ip].no < INUM
    requires t' == tt[ip := tt[ip].(ref := 0)] && s'.dis == u.dis[tt[ip].no := ZeroDinode()]
    ensures TableOk(t', s')
  {}

  // A dinode found free is held by no slot in use.
  lemma TableTyped(t: seq<Inode>, s: Store, s': Store, ino: nat)
    requires TableOk(t, s) && ino < INUM && s.dis[ino].typ == TYPE_NONE
    requires forall i | 0 <= i < INUM && i != ino :: s'.dis[i] == s.dis[i]
    ensures TableOk(t, s') && forall j | 0 <= j < |t| && t[j].ref >= 1 :: t[j].no != ino
  {}
}

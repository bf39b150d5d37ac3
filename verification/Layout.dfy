// The on-disk format: superblock, bitmap block, inode blocks, data blocks.
module Layout {
  import opened Bytes
  import opened DiskCache

  const SUPER_BLOCK := 32
  const BITMAP_BLK := 33
  const INODE_START := 34
  const DATA_START := 64
  const IPERBLK := 64
  const INUM := (DATA_START - INODE_START) * IPERBLK
  const ROOT_INO := 1
  const NDIRECT := 12
  const NINDIRECT := 1024
  const MAX_BLKS := NDIRECT + NINDIRECT
  const MAX_FILE := MAX_BLKS * BLK_SIZE
  const DINODE_SIZE := 64

  const TYPE_NONE := 0
  const TYPE_FILE := 1
  const TYPE_DIR := 2
  const TYPE_DEV := 3

  type Addrs = a: seq<u32> | |a| == NDIRECT + 1 witness seq(NDIRECT + 1, _ => 0)

  datatype Dinode = Dinode(typ: u32, device: u32, size: u32, addrs: Addrs)
  datatype SuperBlock = SuperBlock(bitmap: u32, istart: u32, inum: u32, root: u32)

  function ZeroDinode(): Dinode { Dinode(0, 0, 0, seq(NDIRECT + 1, _ => 0)) }
  const SUPER := SuperBlock(BITMAP_BLK, INODE_START, INUM, ROOT_INO)

  function EncWords(ws: seq<u32>): (s: seq<byte>)
    ensures |s| == 4 * |ws|
  {
    if ws == [] then [] else Enc32(ws[0]) + EncWords(ws[1..])
  }

  lemma {:induction false} WordEncWords(ws: seq<u32>, i: nat)
    requires i < |ws|
    ensures Word(EncWords(ws), i) == ws[i]
  {
    var s := EncWords(ws);
    if i == 0 {
      assert s[0..4] == Enc32(ws[0]);
      DecEnc32(ws[0]);
    } else {
      WordEncWords(ws[1..], i - 1);
      assert s[4 * i..4 * i + 4] == EncWords(ws[1..])[4 * (i - 1)..4 * (i - 1) + 4];
    }
  }

  function EncodeDinode(d: Dinode): (s: seq<byte>)
    ensures |s| == DINODE_SIZE
  {
    EncWords([d.typ, d.device, d.size] + d.addrs)
  }

  function DecodeDinode(s: seq<byte>): Dinode
    requires |s| == DINODE_SIZE
  {
    Dinode(Word(s, 0), Word(s, 1), Word(s, 2), seq(NDIRECT + 1, i requires 0 <= i <= NDIRECT => Word(s, 3 + i)))
  }

  lemma DecodeEncodeDinode(d: Dinode)
    ensures DecodeDinode(EncodeDinode(d)) == d
  {
    var ws := [d.typ, d.device, d.size] + d.addrs;
    forall i: nat | i < |ws| ensures Word(EncodeDinode(d), i) == ws[i] { WordEncWords(ws, i); }
    assert DecodeDinode(EncodeDinode(d)).addrs == d.addrs;
  }

  function DecodeSuper(s: seq<byte>): SuperBlock
    requires |s| == 16
  {
    SuperBlock(Word(s, 0), Word(s, 1), Word(s, 2), Word(s, 3))
  }

  // ---- what the blocks of a disk mean ----

  const ZERO_BLOCK: Block := Zeros(BLK_SIZE)
  const NO_BLOCKS: seq<Block> := seq(BLK_NUM, _ => ZERO_BLOCK)

  type Disk = d: seq<Block> | |d| == BLK_NUM witness NO_BLOCKS
  type Bitmap = b: seq<bool> | |b| == BLK_NUM witness seq(BLK_NUM, _ => false)
  type DinodeTable = t: seq<Dinode> | |t| == INUM witness seq(INUM, _ => ZeroDinode())

  // The file system proper: bitmap, inodes, and the data blocks (blocks below
  // DATA_START read as zero here, they hold the other two).
  datatype Store = Store(bits: Bitmap, dis: DinodeTable, data: Disk)

  function BitAt(bitmap: Block, b: nat): bool
    requires b < BLK_NUM
  {
    Bit(Word(bitmap, b / 32), b % 32)
  }

  function InoBlk(no: nat): nat { INODE_START + no / IPERBLK }
  function InoOff(no: nat): nat { no % IPERBLK * DINODE_SIZE }

  function DinodeAt(d: Disk, no: nat): Dinode
    requires no < INUM
  {
    DecodeDinode(d[InoBlk(no)][InoOff(no)..InoOff(no) + DINODE_SIZE])
  }

  function ViewOf(d: Disk): Store {
    Store(seq(BLK_NUM, b requires 0 <= b < BLK_NUM => BitAt(d[BITMAP_BLK], b)),
          seq(INUM, no requires 0 <= no < INUM => DinodeAt(d, no)),
          seq(BLK_NUM, b requires 0 <= b < BLK_NUM => if b < DATA_START then ZERO_BLOCK else d[b]))
  }

  lemma ViewData(d: Disk, b: nat, blk: Block)
    requires DATA_START <= b < BLK_NUM
    ensures ViewOf(d[b := blk]) == ViewOf(d).(data := ViewOf(d).data[b := blk])
  {
    var d' := d[b := blk];
    forall no: nat | no < INUM ensures DinodeAt(d', no) == DinodeAt(d, no) {}
    assert ViewOf(d').bits == ViewOf(d).bits;
    assert ViewOf(d').dis == ViewOf(d).dis;
    assert ViewOf(d').data == ViewOf(d).data[b := blk];
  }

  lemma ViewBit(d: Disk, b: nat, on: bool, w: u32)
    requires b < BLK_NUM
    requires var old_w := Word(d[BITMAP_BLK], b / 32);
      w == if on then SetBit(old_w, b % 32) else ClearBit(old_w, b % 32)
    ensures ViewOf(d[BITMAP_BLK := Splice(d[BITMAP_BLK], 4 * (b / 32), Enc32(w))])
         == ViewOf(d).(bits := ViewOf(d).bits[b := on])
  {
    var bm := d[BITMAP_BLK];
    var bm': Block := Splice(bm, 4 * (b / 32), Enc32(w));
    var d' := d[BITMAP_BLK := bm'];
    forall c: nat | c < BLK_NUM ensures BitAt(bm', c) == if c == b then on else BitAt(bm, c) {
      WordSplice(bm, b / 32, w, c / 32);
      if c / 32 == b / 32 {
        SetBitAt(Word(bm, b / 32), b % 32, c % 32);
        ClearBitAt(Word(bm, b / 32), b % 32, c % 32);
      }
    }
    forall no: nat | no < INUM ensures DinodeAt(d', no) == DinodeAt(d, no) {}
    assert ViewOf(d').bits == ViewOf(d).bits[b := on];
    assert ViewOf(d').dis == ViewOf(d).dis;
    assert ViewOf(d').data == ViewOf(d).data;
  }

  lemma ViewDinode(d: Disk, no: nat, di: Dinode)
    requires no < INUM
    ensures ViewOf(d[InoBlk(no) := Splice(d[InoBlk(no)], InoOff(no), EncodeDinode(di))])
         == ViewOf(d).(dis := ViewOf(d).dis[no := di])
  {
    var blk := d[InoBlk(no)];
    var blk': Block := Splice(blk, InoOff(no), EncodeDinode(di));
    var d' := d[InoBlk(no) := blk'];
    forall n: nat | n < INUM ensures DinodeAt(d', n) == if n == no then di else DinodeAt(d, n) {
      if n == no {
        assert blk'[InoOff(no)..InoOff(no) + DINODE_SIZE] == EncodeDinode(di);
        DecodeEncodeDinode(di);
      } else if InoBlk(n) == InoBlk(no) {
        assert InoOff(n) + DINODE_SIZE <= InoOff(no) || InoOff(no) + DINODE_SIZE <= InoOff(n);
        assert blk'[InoOff(n)..InoOff(n) + DINODE_SIZE] == blk[InoOff(n)..InoOff(n) + DINODE_SIZE];
      }
    }
    assert ViewOf(d').bits == ViewOf(d).bits;
    assert ViewOf(d').dis == ViewOf(d).dis[no := di];
    assert ViewOf(d').data == ViewOf(d).data;
  }
}

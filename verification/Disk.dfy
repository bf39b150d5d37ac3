// kernel/src/disk.c: sectors below, a 16-line direct-mapped write-through
// cache of blocks above.
module DiskCache {
  import opened Bytes

  const SECTSIZE := 512
  const BLK_SIZE := 4096
  const BLK_NUM := 32768
  const SECT_NUM := 8 * BLK_NUM
  const BCACHE_NUM := 16

  type Block = b: seq<byte> | |b| == BLK_SIZE witness Zeros(BLK_SIZE)
  type Sector = s: seq<byte> | |s| == SECTSIZE witness Zeros(SECTSIZE)

  datatype CacheLine = CacheLine(valid: bool, no: nat, buf: Block)

  // n consecutive sectors, joined
  function Gather(sectors: seq<Sector>, first: nat, n: nat): (r: seq<byte>)
    requires first + n <= |sectors|
    ensures |r| == n * SECTSIZE
  {
    if n == 0 then [] else Gather(sectors, first, n - 1) + sectors[first + n - 1]
  }

  // The eight sectors that make up block no.
  function BlockAt(sectors: seq<Sector>, no: nat): Block
    requires |sectors| == SECT_NUM && no < BLK_NUM
  {
    Gather(sectors, 8 * no, 8)
  }

  lemma {:induction false} GatherSame(s: seq<Sector>, t: seq<Sector>, first: nat, n: nat)
    requires first + n <= |s| && first + n <= |t|
    requires forall k | first <= k < first + n :: s[k] == t[k]
    ensures Gather(s, first, n) == Gather(t, first, n)
  {
    if n > 0 { GatherSame(s, t, first, n - 1); }
  }

  // Cutting a buffer into sectors and gathering them gives the buffer back.
  lemma {:induction false} GatherCut(s: seq<Sector>, first: nat, n: nat, buf: seq<byte>)
    requires first + n <= |s| && n * SECTSIZE <= |buf|
    requires forall k | first <= k < first + n :: s[k] == buf[(k - first) * SECTSIZE..(k - first + 1) * SECTSIZE]
    ensures Gather(s, first, n) == buf[..n * SECTSIZE]
  {
    if n > 0 { GatherCut(s, first, n - 1, buf); }
  }

  // The flat disk: what the cache must be indistinguishable from.
  function Flat(sectors: seq<Sector>): (r: seq<Block>)
    requires |sectors| == SECT_NUM
    ensures |r| == BLK_NUM
  {
    seq(BLK_NUM, no requires 0 <= no < BLK_NUM => BlockAt(sectors, no))
  }

  class BlockDevice {
    const sectors: array<Sector>
    const cache: array<CacheLine>

    ghost predicate Valid()
      reads this, sectors, cache
    {
      && sectors.Length == SECT_NUM
      && cache.Length == BCACHE_NUM
      && forall k | 0 <= k < BCACHE_NUM && cache[k].valid ::
        cache[k].no < BLK_NUM && cache[k].no % BCACHE_NUM == k
        && cache[k].buf == BlockAt(sectors[..], cache[k].no)
    }

    ghost function Blocks(): (r: seq<Block>)
      requires sectors.Length == SECT_NUM
      reads this, sectors
      ensures |r| == BLK_NUM
    {
      Flat(sectors[..])
    }

    // A machine starts with whatever is on the disk and an invalid cache.
    constructor (image: seq<Sector>)
      requires |image| == SECT_NUM
      ensures Valid() && fresh(sectors) && fresh(cache)
      ensures Blocks() == Flat(image)
    {
      sectors := new Sector[SECT_NUM](i requires 0 <= i < |image| => image[i]);
      cache := new CacheLine[BCACHE_NUM](_ => CacheLine(false, 0, Zeros(BLK_SIZE)));
      new;
      assert sectors[..] == image;
    }

    method CopyFromDisk(no: nat) returns (buf: Block)
      requires sectors.Length == SECT_NUM && no < BLK_NUM
      ensures buf == Blocks()[no]
    {
      var acc: seq<byte> := [];
      for i := 0 to 8
        invariant acc == Gather(sectors[..], 8 * no, i)
      {
        acc := acc + sectors[8 * no + i];
      }
      buf := acc;
    }

    method CopyToDisk(buf: Block, no: nat)
      requires sectors.Length == SECT_NUM && no < BLK_NUM
      modifies sectors
      ensures Blocks() == old(Blocks())[no := buf]
    {
      ghost var first := 8 * no;
      for i := 0 to 8
        invariant forall k | first <= k < first + i ::
          sectors[k] == buf[(k - first) * SECTSIZE..(k - first + 1) * SECTSIZE]
        invariant forall k | 0 <= k < SECT_NUM && !(first <= k < first + i) :: sectors[k] == old(sectors[k])
      {
        sectors[8 * no + i] := buf[i * SECTSIZE..(i + 1) * SECTSIZE];
      }
      GatherCut(sectors[..], first, 8, buf);
      forall b | 0 <= b < BLK_NUM && b != no
        ensures BlockAt(sectors[..], b) == BlockAt(old(sectors[..]), b)
      {
        GatherSame(sectors[..], old(sectors[..]), 8 * b, 8);
      }
      assert BlockAt(sectors[..], no) == buf;
    }

    method GetCache(no: nat) returns (k: nat)
      requires Valid() && no < BLK_NUM
      modifies cache
      ensures Valid() && k == no % BCACHE_NUM
      ensures cache[k].valid && cache[k].no == no && cache[k].buf == Blocks()[no]
    {
      k := no % BCACHE_NUM;
      if !cache[k].valid || cache[k].no != no {
        var buf := CopyFromDisk(no);
        cache[k] := CacheLine(true, no, buf);
      }
    }

    method Bread(size: nat, no: nat, off: nat) returns (dst: seq<byte>)
      requires Valid() && no < BLK_NUM && off + size <= BLK_SIZE
      modifies cache
      ensures Valid()
      ensures dst == Blocks()[no][off..off + size]
    {
      var k := GetCache(no);
      dst := cache[k].buf[off..off + size];
    }

    method Bwrite(src: seq<byte>, no: nat, off: nat)
      requires Valid() && no < BLK_NUM && off + |src| <= BLK_SIZE
      modifies cache, sectors
      ensures Valid()
      ensures Blocks() == old(Blocks())[no := Splice(old(Blocks())[no], off, src)]
    {
      var k := GetCache(no);
      cache[k] := cache[k].(buf := Splice(cache[k].buf, off, src));
      WriteThrough(k, no);
    }

    method Bzero(no: nat)
      requires Valid() && no < BLK_NUM
      modifies cache, sectors
      ensures Valid()
      ensures Blocks() == old(Blocks())[no := Zeros(BLK_SIZE)]
    {
      var k := GetCache(no);
      cache[k] := cache[k].(buf := Zeros(BLK_SIZE));
      WriteThrough(k, no);
    }

    // The second half of every write: the line is ahead of the disk in block no only.
    method WriteThrough(k: nat, no: nat)
      requires sectors.Length == SECT_NUM && cache.Length == BCACHE_NUM
      requires no < BLK_NUM && k == no % BCACHE_NUM
      requires cache[k].valid && cache[k].no == no
      requires forall i | 0 <= i < BCACHE_NUM && i != k && cache[i].valid ::
        cache[i].no < BLK_NUM && cache[i].no % BCACHE_NUM == i
        && cache[i].buf == BlockAt(sectors[..], cache[i].no)
      modifies sectors
      ensures Valid()
      ensures Blocks() == old(Blocks())[no := cache[k].buf]
    {
      ghost var before := Blocks();
      CopyToDisk(cache[k].buf, no);
      forall i | 0 <= i < BCACHE_NUM && cache[i].valid
        ensures cache[i].buf == BlockAt(sectors[..], cache[i].no)
      {
        assert Blocks()[cache[i].no] == BlockAt(sectors[..], cache[i].no);
        if i != k { assert before[cache[i].no] == cache[i].buf; }
      }
    }
  }
}

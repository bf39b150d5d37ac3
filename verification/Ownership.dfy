// Who owns which block, and what bytes a file is made of: facts about a Store value.
module Ownership {
  import opened Bytes
  import opened DiskCache
  import opened Layout

  // A place on disk that can hold a block number: k < 12 the direct addresses of
  // inode ino, k == 12 its indirect address, k > 12 entry k - 13 of its indirect block.
  datatype Slot = Slot(ino: nat, k: nat)

  const NSLOT := NDIRECT + 1 + NINDIRECT

  function Entry(s: Store, ind: u32, n: nat): u32
    requires n < NINDIRECT
  {
    if ind == 0 || ind >= BLK_NUM then 0 else Word(s.data[ind], n)
  }

  function Ptr(s: Store, ino: nat, k: nat): u32
    requires ino < INUM && k < NSLOT
  {
    if k <= NDIRECT then s.dis[ino].addrs[k] else Entry(s, s.dis[ino].addrs[NDIRECT], k - NDIRECT - 1)
  }

  // The slot of the n-th block of a file.
  function SlotOf(n: nat): nat { if n < NDIRECT then n else n + 1 }

  function DataPtr(s: Store, ino: nat, n: nat): u32
    requires ino < INUM && n < MAX_BLKS
  {
    Ptr(s, ino, SlotOf(n))
  }

  // Byte off of a file; a block that was never allocated reads as zeros.
  function ByteAt(s: Store, ino: nat, off: nat): byte
    requires ino < INUM && off < MAX_FILE
  {
    var p := DataPtr(s, ino, off / BLK_SIZE);
    if p == 0 || p >= BLK_NUM then 0 else s.data[p][off % BLK_SIZE]
  }

  function Contents(s: Store, ino: nat): (c: seq<byte>)
    requires ino < INUM && s.dis[ino].size <= MAX_FILE
    ensures |c| == s.dis[ino].size
  {
    seq(s.dis[ino].size, off requires 0 <= off < s.dis[ino].size => ByteAt(s, ino, off))
  }

  // ---- block ownership ----

  // own records, for every block in use by a file, the one slot that names it.
  ghost predicate Owned(s: Store, own: map<nat, Slot>) {
    && (forall i: nat, k: nat | i < INUM && k < NSLOT && Ptr(s, i, k) != 0 ::
      Ptr(s, i, k) in own && own[Ptr(s, i, k)] == Slot(i, k))
    && (forall b | b in own ::
      DATA_START <= b < BLK_NUM && s.bits[b] && own[b].ino < INUM && own[b].k < NSLOT
      && Ptr(s, own[b].ino, own[b].k) == b)
    && (forall b | 0 <= b < BLK_NUM && s.bits[b] :: b < DATA_START || b in own)
    && (forall b | 0 <= b < DATA_START :: s.bits[b])
  }

  ghost predicate Named(s: Store, b: nat) {
    exists i: nat, k: nat :: i < INUM && k < NSLOT && Ptr(s, i, k) == b
  }

  // The same thing without the witness: the set bits are exactly the reserved blocks
  // and the blocks some slot names, and no block is named twice.
  ghost predicate ExactOwnership(s: Store) {
    && (forall b: nat | b < BLK_NUM ::
      s.bits[b] <==> b < DATA_START || Named(s, b))
    && (forall i: nat, k: nat, j: nat, l: nat | i < INUM && k < NSLOT && j < INUM && l < NSLOT
        && Ptr(s, i, k) != 0 && Ptr(s, i, k) == Ptr(s, j, l) :: i == j && k == l)
    && (forall i: nat, k: nat | i < INUM && k < NSLOT && Ptr(s, i, k) != 0 :: DATA_START <= Ptr(s, i, k) < BLK_NUM)
  }

  lemma OwnedIsExact(s: Store, own: map<nat, Slot>)
    requires Owned(s, own)
    ensures ExactOwnership(s)
  {
    forall b: nat | b < BLK_NUM
      ensures s.bits[b] <==> b < DATA_START || Named(s, b)
    {
      if s.bits[b] && b >= DATA_START { assert Ptr(s, own[b].ino, own[b].k) == b; }
    }
  }

  // Everything else an image must satisfy.
  ghost predicate SoundInodes(s: Store) {
    && (forall i | 0 <= i < INUM :: s.dis[i].size <= MAX_FILE)
    && (forall i | 0 <= i < INUM && s.dis[i].typ == TYPE_NONE :: s.dis[i] == ZeroDinode())
    && s.dis[0].typ == TYPE_NONE
  }

  // ---- one step at a time ----

  // balloc marks a free block and clears it: no file can tell.
  lemma AllocKeeps(s: Store, own: map<nat, Slot>, b: nat)
    requires Owned(s, own) && b < BLK_NUM && !s.bits[b]
    ensures DATA_START <= b && b !in own
    ensures var s' := s.(bits := s.bits[b := true], data := s.data[b := ZERO_BLOCK]);
      && (forall i: nat, k: nat | i < INUM && k < NSLOT :: Ptr(s', i, k) == Ptr(s, i, k))
      && (forall i: nat, off: nat | i < INUM && off < MAX_FILE :: ByteAt(s', i, off) == ByteAt(s, i, off))
  {
    var s' := s.(bits := s.bits[b := true], data := s.data[b := ZERO_BLOCK]);
    forall i: nat, k: nat | i < INUM && k < NSLOT
      ensures Ptr(s', i, k) == Ptr(s, i, k)
    {
      assert Ptr(s, i, NDIRECT) != b;
    }
    forall i: nat, off: nat | i < INUM && off < MAX_FILE
      ensures ByteAt(s', i, off) == ByteAt(s, i, off)
    {
      assert DataPtr(s, i, off / BLK_SIZE) != b;
    }
  }

  predicate SameHeader(s: Store, s': Store, i: nat)
    requires i < INUM
  {
    && s'.dis[i].typ == s.dis[i].typ
    && s'.dis[i].device == s.dis[i].device
    && s'.dis[i].size == s.dis[i].size
  }

  // Entering a freshly allocated, zeroed block b in an empty slot.
  ghost predicate Linked(s: Store, s': Store, ino: nat, k: nat, b: u32)
    requires ino < INUM && k < NSLOT
  {
    && s'.bits == s.bits
    && (forall i: nat | i < INUM :: SameHeader(s, s', i))
    && (forall i: nat, l: nat | i < INUM && l < NSLOT ::
      Ptr(s', i, l) == if i == ino && l == k then b else Ptr(s, i, l))
    && (forall i: nat, off: nat | i < INUM && off < MAX_FILE :: ByteAt(s', i, off) == ByteAt(s, i, off))
  }

  // The state between balloc and the store into the slot.
  ghost predicate Fresh(s: Store, own: map<nat, Slot>, b: nat) {
    && DATA_START <= b < BLK_NUM && s.bits[b] && s.data[b] == ZERO_BLOCK && b !in own
    && Owned(s.(bits := s.bits[b := false]), own)
  }

  lemma SamePtrs(s: Store, t: Store)
    requires s.dis == t.dis && s.data == t.data
    ensures forall i: nat, k: nat | i < INUM && k < NSLOT :: Ptr(s, i, k) == Ptr(t, i, k)
    ensures forall i: nat, off: nat | i < INUM && off < MAX_FILE :: ByteAt(s, i, off) == ByteAt(t, i, off)
  {
    forall i: nat, k: nat | i < INUM && k < NSLOT ensures Ptr(s, i, k) == Ptr(t, i, k) {}
    forall i: nat, off: nat | i < INUM && off < MAX_FILE ensures ByteAt(s, i, off) == ByteAt(t, i, off) {}
  }

  lemma LinkOwned(s: Store, s': Store, own: map<nat, Slot>, ino: nat, k: nat, b: u32)
    requires ino < INUM && k < NSLOT && Fresh(s, own, b) && Ptr(s, ino, k) == 0
    requires Linked(s, s', ino, k, b)
    ensures Owned(s', own[b := Slot(ino, k)])
  {
    var t := s.(bits := s.bits[b := false]);
    SamePtrs(s, t);
    var own' := own[b := Slot(ino, k)];
    forall i: nat, l: nat | i < INUM && l < NSLOT && Ptr(s', i, l) != 0
      ensures Ptr(s', i, l) in own' && own'[Ptr(s', i, l)] == Slot(i, l)
    {
      assert Ptr(s', i, l) == if i == ino && l == k then b else Ptr(t, i, l);
    }
    forall c | c in own'
      ensures DATA_START <= c < BLK_NUM && s'.bits[c] && own'[c].ino < INUM && own'[c].k < NSLOT
      ensures Ptr(s', own'[c].ino, own'[c].k) == c
    {
      if c != b { assert Ptr(t, own[c].ino, own[c].k) == c; }
    }
    forall c | 0 <= c < BLK_NUM && s'.bits[c] ensures c < DATA_START || c in own' {
      if c != b { assert t.bits[c]; }
    }
    forall c | 0 <= c < DATA_START ensures s'.bits[c] { assert t.bits[c]; }
  }

  // Storing b in a direct address, or in the indirect address.
  lemma LinkAddr(s: Store, own: map<nat, Slot>, ino: nat, k: nat, b: u32)
    requires ino < INUM && k <= NDIRECT && Fresh(s, own, b) && Ptr(s, ino, k) == 0
    ensures var di := s.dis[ino].(addrs := s.dis[ino].addrs[k := b]);
      Linked(s, s.(dis := s.dis[ino := di]), ino, k, b)
  {
    var di := s.dis[ino].(addrs := s.dis[ino].addrs[k := b]);
    var s' := s.(dis := s.dis[ino := di]);
    forall n: nat | n < NINDIRECT ensures Word(ZERO_BLOCK, n) == 0 { WordZeros(BLK_SIZE, n); }
    forall i: nat, l: nat | i < INUM && l < NSLOT
      ensures Ptr(s', i, l) == if i == ino && l == k then b else Ptr(s, i, l)
    {}
    forall i: nat, off: nat | i < INUM && off < MAX_FILE ensures ByteAt(s', i, off) == ByteAt(s, i, off) {
      var l := SlotOf(off / BLK_SIZE);
      assert Ptr(s', i, l) == if i == ino && l == k then b else Ptr(s, i, l);
    }
  }

  // Storing b in an entry of the indirect block.
  lemma LinkEntry(s: Store, own: map<nat, Slot>, ino: nat, n: nat, b: u32)
    requires ino < INUM && n < NINDIRECT && Fresh(s, own, b)
    requires Ptr(s, ino, NDIRECT) != 0 && Ptr(s, ino, NDIRECT + 1 + n) == 0
    ensures var ind := Ptr(s, ino, NDIRECT);
      && DATA_START <= ind < BLK_NUM
      && Linked(s, s.(data := s.data[ind := Splice(s.data[ind], 4 * n, Enc32(b))]), ino, NDIRECT + 1 + n, b)
  {
    var ind := Ptr(s, ino, NDIRECT);
    LinkPtrs(s, own, ino, n, b);
    var s' := s.(data := s.data[ind := Splice(s.data[ind], 4 * n, Enc32(b))]);
    forall i: nat, off: nat | i < INUM && off < MAX_FILE ensures ByteAt(s', i, off) == ByteAt(s, i, off) {
      LinkByte(s, own, ino, n, b, i, off);
    }
  }

  // The entry is the only pointer that changes.
  lemma LinkPtrs(s: Store, own: map<nat, Slot>, ino: nat, n: nat, b: u32)
    requires ino < INUM && n < NINDIRECT && Fresh(s, own, b)
    requires Ptr(s, ino, NDIRECT) != 0 && Ptr(s, ino, NDIRECT + 1 + n) == 0
    ensures var ind := Ptr(s, ino, NDIRECT);
      && DATA_START <= ind < BLK_NUM && ind != b
      && forall i: nat, l: nat | i < INUM && l < NSLOT ::
           Ptr(s.(data := s.data[ind := Splice(s.data[ind], 4 * n, Enc32(b))]), i, l)
           == if i == ino && l == NDIRECT + 1 + n then b else Ptr(s, i, l)
  {
    var t := s.(bits := s.bits[b := false]);
    SamePtrs(s, t);
    var ind := Ptr(s, ino, NDIRECT);
    assert ind == Ptr(t, ino, NDIRECT);
    assert ind in own && own[ind] == Slot(ino, NDIRECT);
    var blk: Block := Splice(s.data[ind], 4 * n, Enc32(b));
    var s' := s.(data := s.data[ind := blk]);
    forall m: nat | m < NINDIRECT ensures Word(blk, m) == if m == n then b else Word(s.data[ind], m) {
      WordSplice(s.data[ind], n, b, m);
    }
    var k := NDIRECT + 1 + n;
    forall i: nat, l: nat | i < INUM && l < NSLOT
      ensures Ptr(s', i, l) == if i == ino && l == k then b else Ptr(s, i, l)
    {
      assert Ptr(s, i, NDIRECT) == Ptr(t, i, NDIRECT);
    }
  }

  lemma LinkByte(s: Store, own: map<nat, Slot>, ino: nat, n: nat, b: u32, i: nat, off: nat)
    requires ino < INUM && n < NINDIRECT && Fresh(s, own, b) && i < INUM && off < MAX_FILE
    requires Ptr(s, ino, NDIRECT) != 0 && Ptr(s, ino, NDIRECT + 1 + n) == 0
    ensures var ind := Ptr(s, ino, NDIRECT);
      && DATA_START <= ind < BLK_NUM
      && ByteAt(s.(data := s.data[ind := Splice(s.data[ind], 4 * n, Enc32(b))]), i, off) == ByteAt(s, i, off)
  {
    hide Ptr, Splice, Enc32;
    LinkPtrs(s, own, ino, n, b);
    var t, ind := s.(bits := s.bits[b := false]), Ptr(s, ino, NDIRECT);
    SamePtrs(s, t);
    var l := SlotOf(off / BLK_SIZE);
    assert Ptr(s, i, l) == Ptr(t, i, l) && Ptr(s, ino, NDIRECT) == Ptr(t, ino, NDIRECT);
  }

  // ---- what operations mean for files ----

  // No file has changed: neither its header nor any byte it could be asked for.
  ghost predicate SameFiles(s: Store, s': Store) {
    && (forall i: nat | i < INUM :: SameHeader(s, s', i))
    && (forall i: nat, off: nat | i < INUM && off < MAX_FILE :: ByteAt(s', i, off) == ByteAt(s, i, off))
  }

  // Blocks were only ever added, and only to file ino.
  ghost predicate OnlyGrows(s: Store, s': Store, ino: nat)
    requires ino < INUM
  {
    && (forall b: nat | b < BLK_NUM && s.bits[b] :: s'.bits[b])
    && (forall i: nat, k: nat | i < INUM && k < NSLOT && (i != ino || Ptr(s, i, k) != 0) ::
      Ptr(s', i, k) == Ptr(s, i, k))
  }

  // The bytes buf now stand at off in file ino; all other bytes of all files are as before.
  ghost predicate BytesWritten(s: Store, s': Store, ino: nat, off: nat, buf: seq<byte>)
    requires ino < INUM
  {
    forall i: nat, o: nat | i < INUM && o < MAX_FILE ::
      ByteAt(s', i, o) == if i == ino && off <= o < off + |buf| then buf[o - off] else ByteAt(s, i, o)
  }

  // No file changed; file ino may have gained blocks of zeros.
  ghost predicate Grew(s: Store, s': Store, ino: nat)
    requires ino < INUM
  {
    SameFiles(s, s') && OnlyGrows(s, s', ino)
  }

  lemma GrewTransitive(s: Store, t: Store, u: Store, ino: nat)
    requires ino < INUM && Grew(s, t, ino) && Grew(t, u, ino)
    ensures Grew(s, u, ino)
  {
    forall i: nat | i < INUM ensures SameHeader(s, u, i) { assert SameHeader(s, t, i) && SameHeader(t, u, i); }
    forall i: nat, k: nat | i < INUM && k < NSLOT
      && (i != ino || Ptr(s, i, k) != 0) ensures Ptr(u, i, k) == Ptr(s, i, k) {
      assert Ptr(t, i, k) == Ptr(s, i, k);
    }
    forall i: nat, off: nat | i < INUM && off < MAX_FILE ensures ByteAt(u, i, off) == ByteAt(s, i, off) {
      assert ByteAt(t, i, off) == ByteAt(s, i, off);
    }
  }

  function Taken(s: Store, b: nat): Store
    requires b < BLK_NUM
  {
    s.(bits := s.bits[b := true], data := s.data[b := ZERO_BLOCK])
  }

  lemma TakenIsFresh(s: Store, own: map<nat, Slot>, b: nat)
    requires Owned(s, own) && b < BLK_NUM && !s.bits[b]
    ensures Fresh(Taken(s, b), own, b)
  {
    AllocKeeps(s, own, b);
    var t := Taken(s, b).(bits := s.bits);
    assert Taken(s, b).bits[b := false] == s.bits;
    SamePtrs(Taken(s, b), t);
    assert Owned(t, own);
  }

  lemma LinkedGrew(s: Store, own: map<nat, Slot>, s': Store, ino: nat, k: nat, b: u32)
    requires Owned(s, own) && b < BLK_NUM && !s.bits[b] && ino < INUM && k < NSLOT
    requires Linked(Taken(s, b), s', ino, k, b) && Ptr(s, ino, k) == 0
    ensures Owned(s', own[b := Slot(ino, k)]) && Grew(s, s', ino) && Ptr(s', ino, k) == b && b != 0
  {
    AllocKeeps(s, own, b);
    TakenIsFresh(s, own, b);
    LinkOwned(Taken(s, b), s', own, ino, k, b);
    forall i: nat | i < INUM ensures SameHeader(s, s', i) { assert SameHeader(Taken(s, b), s', i); }
  }

  // A new block for a direct address or for the indirect address.
  lemma GrowAddr(s: Store, own: map<nat, Slot>, ino: nat, k: nat, b: u32)
    requires Owned(s, own) && SoundInodes(s) && b < BLK_NUM && !s.bits[b]
    requires ino < INUM && k <= NDIRECT && s.dis[ino].addrs[k] == 0 && s.dis[ino].typ != TYPE_NONE
    ensures var t := Taken(s, b);
      var s' := t.(dis := t.dis[ino := t.dis[ino].(addrs := t.dis[ino].addrs[k := b])]);
      && Owned(s', own[b := Slot(ino, k)]) && SoundInodes(s') && Grew(s, s', ino)
      && Ptr(s', ino, k) == b && b != 0
  {
    AllocKeeps(s, own, b);
    TakenIsFresh(s, own, b);
    var t := Taken(s, b);
    assert Ptr(t, ino, k) == Ptr(s, ino, k) == 0;
    LinkAddr(t, own, ino, k, b);
    var s' := t.(dis := t.dis[ino := t.dis[ino].(addrs := t.dis[ino].addrs[k := b])]);
    LinkedGrew(s, own, s', ino, k, b);
  }

  // A new block for entry n of the indirect block.
  lemma GrowEntry(s: Store, own: map<nat, Slot>, ino: nat, n: nat, b: u32)
    requires Owned(s, own) && SoundInodes(s) && b < BLK_NUM && !s.bits[b]
    requires ino < INUM && n < NINDIRECT && s.dis[ino].typ != TYPE_NONE
    requires s.dis[ino].addrs[NDIRECT] != 0 && Ptr(s, ino, NDIRECT + 1 + n) == 0
    ensures var t, ind, k := Taken(s, b), s.dis[ino].addrs[NDIRECT], NDIRECT + 1 + n;
      && DATA_START <= ind < BLK_NUM
      && var s' := t.(data := t.data[ind := Splice(t.data[ind], 4 * n, Enc32(b))]);
      && Owned(s', own[b := Slot(ino, k)]) && SoundInodes(s') && Grew(s, s', ino)
      && Ptr(s', ino, k) == b && b != 0
  {
    AllocKeeps(s, own, b);
    TakenIsFresh(s, own, b);
    var t, ind, k := Taken(s, b), s.dis[ino].addrs[NDIRECT], NDIRECT + 1 + n;
    assert Ptr(t, ino, NDIRECT) == Ptr(s, ino, NDIRECT) == ind;
    assert Ptr(t, ino, k) == Ptr(s, ino, k);
    LinkEntry(t, own, ino, n, b);
    var s' := t.(data := t.data[ind := Splice(t.data[ind], 4 * n, Enc32(b))]);
    LinkedGrew(s, own, s', ino, k, b);
  }

  lemma WriteBlock(s: Store, own: map<nat, Slot>, ino: nat, n: nat, at: nat, src: seq<byte>)
    requires ino < INUM && n < MAX_BLKS && Owned(s, own) && at + |src| <= BLK_SIZE
    requires DataPtr(s, ino, n) != 0
    ensures var p := DataPtr(s, ino, n);
      && DATA_START <= p < BLK_NUM
      && var s' := s.(data := s.data[p := Splice(s.data[p], at, src)]);
      && Owned(s', own)
      && OnlyGrows(s, s', ino)
      && BytesWritten(s, s', ino, n * BLK_SIZE + at, src)
  {
    var p := DataPtr(s, ino, n);
    assert own[p] == Slot(ino, SlotOf(n));
    var blk: Block := Splice(s.data[p], at, src);
    var s' := s.(data := s.data[p := blk]);
    forall i: nat, k: nat | i < INUM && k < NSLOT ensures Ptr(s', i, k) == Ptr(s, i, k) {
      assert Ptr(s, i, NDIRECT) != p;
    }
    forall i: nat, o: nat | i < INUM && o < MAX_FILE
      ensures ByteAt(s', i, o) ==
        if i == ino && n * BLK_SIZE + at <= o < n * BLK_SIZE + at + |src|
        then src[o - (n * BLK_SIZE + at)] else ByteAt(s, i, o)
    {
      var m := o / BLK_SIZE;
      assert DataPtr(s', i, m) == DataPtr(s, i, m);
      assert DataPtr(s, i, m) == p <==> i == ino && m == n;
    }
  }

  // ---- truncation ----

  // The bitmap once the blocks in the slots `done` of inode ino have been freed.
  ghost function FreedBits(s: Store, own: map<nat, Slot>, ino: nat, done: set<nat>): Bitmap {
    seq(BLK_NUM, b requires 0 <= b < BLK_NUM => s.bits[b] && !(b in own && own[b].ino == ino && own[b].k in done))
  }

  lemma FreeSlot(s: Store, own: map<nat, Slot>, ino: nat, done: set<nat>, k: nat)
    requires ino < INUM && k < NSLOT && k !in done && Owned(s, own)
    ensures var p := Ptr(s, ino, k);
      FreedBits(s, own, ino, done + {k}) ==
        if p == 0 then FreedBits(s, own, ino, done) else FreedBits(s, own, ino, done)[p := false]
    ensures Ptr(s, ino, k) == 0 || DATA_START <= Ptr(s, ino, k) < BLK_NUM
  {
    var p := Ptr(s, ino, k);
    var bits, bits' := FreedBits(s, own, ino, done), FreedBits(s, own, ino, done + {k});
    forall b | 0 <= b < BLK_NUM ensures bits'[b] == if p != 0 && b == p then false else bits[b] {}
  }

  // File ino has no blocks and no bytes left; no other file changed in any way.
  ghost predicate Emptied(s: Store, s': Store, ino: nat)
    requires ino < INUM
  {
    && (forall i: nat, k: nat | i < INUM && k < NSLOT :: Ptr(s', i, k) == if i == ino then 0 else Ptr(s, i, k))
    && (forall i: nat, o: nat | i < INUM && o < MAX_FILE :: ByteAt(s', i, o) == if i == ino then 0 else ByteAt(s, i, o))
    && (forall b: nat | b < BLK_NUM ::
      s'.bits[b] <==> s.bits[b] && (b < DATA_START || forall k: nat | k < NSLOT :: Ptr(s, ino, k) != b))
  }

  ghost function OwnWithout(own: map<nat, Slot>, ino: nat): map<nat, Slot> {
    map b | b in own && own[b].ino != ino :: own[b]
  }

  lemma TruncOwned(s: Store, own: map<nat, Slot>, ino: nat, all: set<nat>, di: Dinode)
    requires ino < INUM && Owned(s, own)
    requires forall k: nat | k < NSLOT :: k in all
    requires forall k | 0 <= k <= NDIRECT :: di.addrs[k] == 0
    ensures var s' := s.(bits := FreedBits(s, own, ino, all), dis := s.dis[ino := di]);
      Owned(s', OwnWithout(own, ino)) && Emptied(s, s', ino)
  {
    var s' := s.(bits := FreedBits(s, own, ino, all), dis := s.dis[ino := di]);
    forall i: nat, k: nat | i < INUM && k < NSLOT ensures Ptr(s', i, k) == if i == ino then 0 else Ptr(s, i, k) {}
    forall b: nat | b < BLK_NUM
      ensures s'.bits[b] <==> s.bits[b] && (b < DATA_START || forall k: nat | k < NSLOT :: Ptr(s, ino, k) != b)
    {
      if b in own && own[b].ino == ino { assert Ptr(s, ino, own[b].k) == b; }
    }
    assert Owned(s', OwnWithout(own, ino));
  }

  // The slots below n.
  ghost function UpTo(n: nat): (r: set<nat>)
    ensures forall k: nat :: k in r <==> k < n
  {
    if n == 0 then {} else UpTo(n - 1) + {n - 1}
  }

  lemma FreeNothing(s: Store, own: map<nat, Slot>, ino: nat, done: set<nat>, all: set<nat>)
    requires ino < INUM && Owned(s, own) && done <= all
    requires forall k | k in all && k !in done :: k < NSLOT && Ptr(s, ino, k) == 0
    ensures FreedBits(s, own, ino, all) == FreedBits(s, own, ino, done)
  {
    forall b | 0 <= b < BLK_NUM ensures FreedBits(s, own, ino, all)[b] == FreedBits(s, own, ino, done)[b] {
      if b in own && own[b].ino == ino { assert Ptr(s, ino, own[b].k) == b; }
    }
  }

  function NoAddrs(): Addrs { seq(NDIRECT + 1, _ => 0) }

  // File ino now has size 0 and no blocks; nothing else changed.
  ghost predicate Truncated(s: Store, s': Store, ino: nat)
    requires ino < INUM
  {
    && s'.dis == s.dis[ino := s.dis[ino].(size := 0, addrs := NoAddrs())]
    && s'.data == s.data
    && Emptied(s, s', ino)
  }

  // ---- reading ----

  lemma ContentsSame(s: Store, s': Store, ino: nat)
    requires ino < INUM && SameFiles(s, s') && s.dis[ino].size <= MAX_FILE
    ensures s'.dis[ino].size <= MAX_FILE && Contents(s', ino) == Contents(s, ino)
  {
    assert SameHeader(s, s', ino);
    forall off | 0 <= off < s.dis[ino].size ensures ByteAt(s', ino, off) == ByteAt(s, ino, off) {}
  }

  lemma DataPtrInRange(s: Store, own: map<nat, Slot>, ino: nat, n: nat)
    requires ino < INUM && Owned(s, own) && n < MAX_BLKS && DataPtr(s, ino, n) != 0
    ensures DATA_START <= DataPtr(s, ino, n) < BLK_NUM
    ensures DataPtr(s, ino, n) in own && own[DataPtr(s, ino, n)] == Slot(ino, SlotOf(n))
  {}

  lemma ReadChunk(s: Store, own: map<nat, Slot>, ino: nat, pos: nat, m: nat)
    requires ino < INUM && Owned(s, own) && s.dis[ino].size <= MAX_FILE
    requires pos < MAX_FILE && DataPtr(s, ino, pos / BLK_SIZE) != 0
    requires pos % BLK_SIZE + m <= BLK_SIZE && pos + m <= s.dis[ino].size
    ensures DATA_START <= DataPtr(s, ino, pos / BLK_SIZE) < BLK_NUM
    ensures s.data[DataPtr(s, ino, pos / BLK_SIZE)][pos % BLK_SIZE..pos % BLK_SIZE + m]
      == Contents(s, ino)[pos..pos + m]
  {
    hide Owned, Ptr;
    DataPtrInRange(s, own, ino, pos / BLK_SIZE);
    var p, at, c := DataPtr(s, ino, pos / BLK_SIZE), pos % BLK_SIZE, Contents(s, ino);
    var l, r := s.data[p][at..at + m], c[pos..pos + m];
    forall x | 0 <= x < m ensures l[x] == r[x] {
      var o := pos + x;
      assert o / BLK_SIZE == pos / BLK_SIZE && o % BLK_SIZE == at + x;
      assert r[x] == c[o] == ByteAt(s, ino, o);
    }
  }

  // ---- writing ----

  ghost predicate Wrote(s: Store, s': Store, ino: nat, off: nat, buf: seq<byte>)
    requires ino < INUM
  {
    && (forall i: nat | i < INUM :: SameHeader(s, s', i))
    && OnlyGrows(s, s', ino)
    && BytesWritten(s, s', ino, off, buf)
  }

  lemma WroteNothing(s: Store, ino: nat, off: nat)
    requires ino < INUM
    ensures Wrote(s, s, ino, off, [])
  {}

  lemma WroteCompose(s: Store, t: Store, u: Store, ino: nat, off: nat, a: seq<byte>, b: seq<byte>)
    requires ino < INUM && Wrote(s, t, ino, off, a) && Wrote(t, u, ino, off + |a|, b)
    ensures Wrote(s, u, ino, off, a + b)
  {
    hide Ptr, ByteAt;
    forall i: nat | i < INUM ensures SameHeader(s, u, i) { assert SameHeader(s, t, i) && SameHeader(t, u, i); }
    forall i: nat, k: nat | i < INUM && k < NSLOT
      && (i != ino || Ptr(s, i, k) != 0) ensures Ptr(u, i, k) == Ptr(s, i, k) {
      assert Ptr(t, i, k) == Ptr(s, i, k);
    }
    forall i: nat, o: nat | i < INUM && o < MAX_FILE
      ensures ByteAt(u, i, o) == if i == ino && off <= o < off + |a + b| then (a + b)[o - off] else ByteAt(s, i, o)
    {
      assert ByteAt(t, i, o) == if i == ino && off <= o < off + |a| then a[o - off] else ByteAt(s, i, o);
    }
  }

  // A block is found or allocated (t to u), then overwritten in place (u to v).
  lemma WroteMore(s: Store, t: Store, u: Store, v: Store, own: map<nat, Slot>, ino: nat, off: nat, done: seq<byte>,
                  src: seq<byte>, p: nat)
    requires ino < INUM && Wrote(s, t, ino, off, done) && Grew(t, u, ino)
    requires Owned(u, own)
    requires off + |done| < MAX_FILE && (off + |done|) % BLK_SIZE + |src| <= BLK_SIZE
    requires p == DataPtr(u, ino, (off + |done|) / BLK_SIZE) && DATA_START <= p < BLK_NUM
    requires v == u.(data := u.data[p := Splice(u.data[p], (off + |done|) % BLK_SIZE, src)])
    ensures Owned(v, own) && Wrote(s, v, ino, off, done + src)
  {
    hide Ptr, ByteAt, DataPtr, Owned, Splice;
    var pos := off + |done|;
    var n, at := pos / BLK_SIZE, pos % BLK_SIZE;
    WriteBlock(u, own, ino, n, at, src);
    assert n * BLK_SIZE + at == pos;
    assert Wrote(t, u, ino, pos, []) by { hide SameHeader; }
    assert Wrote(u, v, ino, pos, src);
    hide OnlyGrows, BytesWritten, SameHeader, Wrote, Grew;
    WroteCompose(t, u, v, ino, pos, [], src);
    assert [] + src == src;
    WroteCompose(s, t, v, ino, off, done, src);
  }

  // What iwrite does to the whole file system.
  ghost predicate FileWritten(s: Store, s': Store, ino: nat, off: nat, buf: seq<byte>)
    requires ino < INUM
  {
    && (forall i: nat | i < INUM && i != ino :: SameHeader(s, s', i))
    && s'.dis[ino].typ == s.dis[ino].typ
    && s'.dis[ino].device == s.dis[ino].device
    && s'.dis[ino].size == (if off + |buf| > s.dis[ino].size then off + |buf| else s.dis[ino].size)
    && OnlyGrows(s, s', ino)
    && BytesWritten(s, s', ino, off, buf)
  }

  function Resized(s: Store, ino: nat, n: u32): Store
    requires ino < INUM
  {
    s.(dis := s.dis[ino := s.dis[ino].(size := n)])
  }

  lemma SetSize(s: Store, t: Store, own: map<nat, Slot>, ino: nat, off: nat, buf: seq<byte>)
    requires ino < INUM && Wrote(s, t, ino, off, buf) && Owned(t, own) && SoundInodes(t) && t.dis[ino].typ != TYPE_NONE
    requires off + |buf| <= MAX_FILE
    ensures var u := Resized(t, ino, off + |buf|);
      && Owned(u, own) && SoundInodes(u)
      && (off + |buf| > s.dis[ino].size ==> FileWritten(s, u, ino, off, buf))
    ensures off + |buf| <= s.dis[ino].size ==> FileWritten(s, t, ino, off, buf)
  {
    var u := Resized(t, ino, off + |buf|);
    assert SameHeader(s, t, ino);
    forall i: nat, k: nat | i < INUM && k < NSLOT ensures Ptr(u, i, k) == Ptr(t, i, k) {}
    forall i: nat, o: nat | i < INUM && o < MAX_FILE ensures ByteAt(u, i, o) == ByteAt(t, i, o) {
      assert DataPtr(u, i, o / BLK_SIZE) == DataPtr(t, i, o / BLK_SIZE);
    }
    forall i: nat | i < INUM && i != ino ensures SameHeader(s, u, i) { assert SameHeader(s, t, i); }
  }

  // The contents of a file after iwrite: the old ones with buf laid over them at off.
  function Overlay(c: seq<byte>, off: nat, buf: seq<byte>): (r: seq<byte>)
    requires off <= |c|
  {
    c[..off] + buf + if off + |buf| <= |c| then c[off + |buf|..] else []
  }

  lemma OverlayLength(c: seq<byte>, off: nat, buf: seq<byte>)
    requires off <= |c|
    ensures |Overlay(c, off, buf)| == if off + |buf| > |c| then off + |buf| else |c|
  {}

  lemma OverlayAt(c: seq<byte>, off: nat, buf: seq<byte>, o: nat)
    requires off <= |c| && o < |Overlay(c, off, buf)|
    ensures Overlay(c, off, buf)[o] == if off <= o < off + |buf| then buf[o - off] else c[o]
  {}

  lemma ContentsWritten(s: Store, s': Store, ino: nat, off: nat, buf: seq<byte>, other: nat)
    requires ino < INUM && other < INUM && SoundInodes(s) && SoundInodes(s')
    requires off <= s.dis[ino].size && FileWritten(s, s', ino, off, buf)
    ensures Contents(s', other) == if other == ino then Overlay(Contents(s, ino), off, buf) else Contents(s, other)
  {
    hide Ptr, ByteAt, OnlyGrows, Overlay;
    if other != ino { assert SameHeader(s, s', other); }
    var c, c' := Contents(s, other), Contents(s', other);
    if other == ino {
      var want := Overlay(c, off, buf);
      OverlayLength(c, off, buf);
      forall o | 0 <= o < |c'| ensures c'[o] == want[o] {
        OverlayAt(c, off, buf, o);
        assert c'[o] == ByteAt(s', ino, o);
      }
    } else {
      forall o | 0 <= o < |c'| ensures c'[o] == c[o] { assert c'[o] == ByteAt(s', other, o); }
    }
  }

  // Truncation empties the file and no other.
  lemma ContentsTruncated(s: Store, s': Store, ino: nat, other: nat)
    requires ino < INUM && other < INUM && SoundInodes(s) && SoundInodes(s') && Truncated(s, s', ino)
    ensures Contents(s', other) == if other == ino then [] else Contents(s, other)
  {
    if other != ino {
      forall o | 0 <= o < s.dis[other].size ensures ByteAt(s', other, o) == ByteAt(s, other, o) {}
    }
  }

  // ---- deletion ----

  // The dinode is free again and zeroed, its blocks are back in the bitmap, no other file changed.
  ghost predicate Deleted(s: Store, s': Store, ino: nat)
    requires ino < INUM
  {
    && s'.dis == s.dis[ino := ZeroDinode()]
    && s'.data == s.data
    && Emptied(s, s', ino)
  }

  lemma DeleteOwned(s: Store, t: Store, own: map<nat, Slot>, ino: nat)
    requires 0 < ino < INUM && Truncated(s, t, ino) && Owned(t, own) && SoundInodes(t)
    ensures var u := t.(dis := t.dis[ino := ZeroDinode()]);
      Owned(u, own) && SoundInodes(u) && Deleted(s, u, ino)
  {
    var u := t.(dis := t.dis[ino := ZeroDinode()]);
    forall i: nat, k: nat | i < INUM && k < NSLOT ensures Ptr(u, i, k) == Ptr(t, i, k) {}
    forall i: nat, o: nat | i < INUM && o < MAX_FILE ensures ByteAt(u, i, o) == ByteAt(t, i, o) {
      assert DataPtr(u, i, o / BLK_SIZE) == DataPtr(t, i, o / BLK_SIZE);
    }
    assert u.dis == s.dis[ino := ZeroDinode()];
  }
}

// The file system as its users see it: a table of typed byte strings.
module Files {
  import opened Bytes
  import opened DiskCache
  import opened Layout
  import opened Ownership

  datatype File = File(typ: u32, device: u32, data: seq<byte>)

  const NO_FILE := File(TYPE_NONE, 0, [])

  function FilesOf(s: Store): (f: seq<File>)
    requires forall i | 0 <= i < INUM :: s.dis[i].size <= MAX_FILE
    ensures |f| == INUM
  {
    seq(INUM, i requires 0 <= i < INUM => File(s.dis[i].typ, s.dis[i].device, Contents(s, i)))
  }

  lemma GrewFiles(s: Store, s': Store, ino: nat)
    requires ino < INUM && SoundInodes(s) && SoundInodes(s') && Grew(s, s', ino)
    ensures FilesOf(s') == FilesOf(s)
  {
    hide OnlyGrows, ByteAt, Contents;
    forall i: nat | i < INUM ensures FilesOf(s')[i] == FilesOf(s)[i] {
      ContentsSame(s, s', i);
      assert SameHeader(s, s', i);
    }
  }

  lemma WrittenFiles(s: Store, s': Store, ino: nat, off: nat, buf: seq<byte>)
    requires ino < INUM && SoundInodes(s) && SoundInodes(s')
    requires off <= s.dis[ino].size && FileWritten(s, s', ino, off, buf)
    ensures FilesOf(s') == FilesOf(s)[ino := FilesOf(s)[ino].(data := Overlay(FilesOf(s)[ino].data, off, buf))]
  {
    hide OnlyGrows, BytesWritten, ByteAt, Contents, Overlay;
    forall i: nat | i < INUM
      ensures FilesOf(s')[i] ==
        FilesOf(s)[ino := FilesOf(s)[ino].(data := Overlay(FilesOf(s)[ino].data, off, buf))][i]
    {
      ContentsWritten(s, s', ino, off, buf, i);
      if i != ino { assert SameHeader(s, s', i); }
    }
  }

  lemma TruncatedFiles(s: Store, s': Store, ino: nat)
    requires ino < INUM && SoundInodes(s) && SoundInodes(s') && Truncated(s, s', ino)
    ensures FilesOf(s') == FilesOf(s)[ino := FilesOf(s)[ino].(data := [])]
  {
    hide ByteAt, Contents;
    forall i: nat | i < INUM ensures FilesOf(s')[i] == FilesOf(s)[ino := FilesOf(s)[ino].(data := [])][i] {
      ContentsTruncated(s, s', ino, i);
    }
  }

  lemma DeletedFiles(s: Store, s': Store, ino: nat)
    requires ino < INUM && SoundInodes(s) && SoundInodes(s') && Deleted(s, s', ino)
    ensures FilesOf(s') == FilesOf(s)[ino := NO_FILE]
  {
    forall i: nat | i < INUM ensures FilesOf(s')[i] == FilesOf(s)[ino := NO_FILE][i] {
      if i != ino {
        var c, c' := Contents(s, i), Contents(s', i);
        forall o | 0 <= o < |c| ensures c'[o] == c[o] { assert ByteAt(s', i, o) == ByteAt(s, i, o); }
      }
    }
  }

  // A free dinode gets a type: an empty file appears.
  lemma TypedFiles(s: Store, own: map<nat, Slot>, ino: nat, typ: u32)
    requires 0 < ino < INUM && Owned(s, own) && SoundInodes(s) && s.dis[ino].typ == TYPE_NONE && typ != TYPE_NONE
    ensures var s' := s.(dis := s.dis[ino := s.dis[ino].(typ := typ)]);
      && Owned(s', own) && SoundInodes(s')
      && FilesOf(s') == FilesOf(s)[ino := File(typ, 0, [])]
  {
    var s' := s.(dis := s.dis[ino := s.dis[ino].(typ := typ)]);
    forall i: nat, k: nat | i < INUM && k < NSLOT ensures Ptr(s', i, k) == Ptr(s, i, k) {}
    forall i: nat, o: nat | i < INUM && o < MAX_FILE ensures ByteAt(s', i, o) == ByteAt(s, i, o) {
      assert DataPtr(s', i, o / BLK_SIZE) == DataPtr(s, i, o / BLK_SIZE);
    }
    forall i: nat | i < INUM ensures FilesOf(s')[i] == FilesOf(s)[ino := File(typ, 0, [])][i] {
      if i != ino { assert Contents(s', i) == Contents(s, i); }
    }
  }

  // A dinode gets a device number: nothing but that number changes.
  lemma DeviceFiles(s: Store, own: map<nat, Slot>, ino: nat, id: u32)
    requires ino < INUM && Owned(s, own) && SoundInodes(s) && s.dis[ino].typ != TYPE_NONE
    ensures var s' := s.(dis := s.dis[ino := s.dis[ino].(device := id)]);
      && Owned(s', own) && SoundInodes(s')
      && FilesOf(s') == FilesOf(s)[ino := FilesOf(s)[ino].(device := id)]
  {
    var s' := s.(dis := s.dis[ino := s.dis[ino].(device := id)]);
    forall i: nat, k: nat | i < INUM && k < NSLOT ensures Ptr(s', i, k) == Ptr(s, i, k) {}
    forall i: nat, o: nat | i < INUM && o < MAX_FILE ensures ByteAt(s', i, o) == ByteAt(s, i, o) {
      assert DataPtr(s', i, o / BLK_SIZE) == DataPtr(s, i, o / BLK_SIZE);
    }
    forall i: nat | i < INUM ensures FilesOf(s')[i] == FilesOf(s)[ino := FilesOf(s)[ino].(device := id)][i] {
      assert Contents(s', i) == Contents(s, i);
    }
  }
}

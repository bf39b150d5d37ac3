// Directories are files of 32-byte entries: what their bytes mean.
module Dirents {
  import opened Bytes
  import opened Ownership

  const DIRENT_SIZE := 32
  const MAX_NAME := 27

  // A C string: the bytes before the first NUL.
  function CStr(b: seq<byte>): (r: seq<byte>)
    ensures |r| <= |b|
  {
    if b == [] || b[0] == 0 then [] else [b[0]] + CStr(b[1..])
  }

  type Name = n: seq<byte> | |n| <= MAX_NAME && 0 !in n witness []

  const DOT: Name := [46]
  const DOTDOT: Name := [46, 46]

  lemma {:induction false} CStrOfString(n: seq<byte>, rest: seq<byte>)
    requires 0 !in n
    ensures CStr(n + [0] + rest) == n
  {
    var b := n + [0] + rest;
    if n != [] {
      assert b[0] == n[0] && b[0] in n;
      assert b[1..] == n[1..] + [0] + rest;
      CStrOfString(n[1..], rest);
    }
  }

  function Count(c: seq<byte>): nat { |c| / DIRENT_SIZE }

  function EntIno(c: seq<byte>, k: nat): u32
    requires k < Count(c)
  {
    Dec32(c[DIRENT_SIZE * k..DIRENT_SIZE * k + 4])
  }

  function EntName(c: seq<byte>, k: nat): seq<byte>
    requires k < Count(c)
  {
    CStr(c[DIRENT_SIZE * k + 4..DIRENT_SIZE * k + DIRENT_SIZE])
  }

  // Entry k of directory contents c is in use and called name.
  predicate Names(c: seq<byte>, k: nat, name: seq<byte>) {
    k < Count(c) && EntIno(c, k) != 0 && EntName(c, k) == name
  }

  predicate Absent(c: seq<byte>, name: seq<byte>) {
    forall k: nat | k < Count(c) :: !Names(c, k, name)
  }

  // The bytes of a dirent after its number and its name were filled in; behind the name's NUL they stay.
  // The bytes after the NUL keep whatever was in the buffer before.
  function Fill(buf: seq<byte>, ino: u32, name: Name): (r: seq<byte>)
    requires |buf| == DIRENT_SIZE
    ensures |r| == DIRENT_SIZE
  {
    Splice(Splice(buf, 0, Enc32(ino)), 4, name + [0])
  }

  lemma FillMeans(buf: seq<byte>, ino: u32, name: Name)
    requires |buf| == DIRENT_SIZE
    ensures Dec32(Fill(buf, ino, name)[..4]) == ino && CStr(Fill(buf, ino, name)[4..]) == name
  {
    var r := Fill(buf, ino, name);
    assert r[..4] == Enc32(ino);
    DecEnc32(ino);
    assert r[4..] == name + [0] + buf[4 + |name| + 1..];
    CStrOfString(name, buf[4 + |name| + 1..]);
  }

  // d' is d with entry e replaced (or appended); no other entry has changed.
  ghost predicate EntrySet(d: seq<byte>, d': seq<byte>, e: nat, ino: u32, name: seq<byte>) {
    && |d| % DIRENT_SIZE == 0 && e <= Count(d)
    && |d'| == (if e == Count(d) then |d| + DIRENT_SIZE else |d|)
    && EntIno(d', e) == ino && EntName(d', e) == name
    && forall k: nat | k < Count(d) && k != e :: EntIno(d', k) == EntIno(d, k) && EntName(d', k) == EntName(d, k)
  }

  lemma OverlayEntry(d: seq<byte>, e: nat, raw: seq<byte>)
    requires |d| % DIRENT_SIZE == 0 && e <= Count(d) && |raw| == DIRENT_SIZE
    ensures EntrySet(d, Overlay(d, DIRENT_SIZE * e, raw), e, Dec32(raw[..4]), CStr(raw[4..]))
  {
    var d' := Overlay(d, DIRENT_SIZE * e, raw);
    OverlayLength(d, DIRENT_SIZE * e, raw);
    assert d'[DIRENT_SIZE * e..DIRENT_SIZE * e + 4] == raw[..4];
    assert d'[DIRENT_SIZE * e + 4..DIRENT_SIZE * e + DIRENT_SIZE] == raw[4..];
    forall k: nat | k < Count(d) && k != e
      ensures EntIno(d', k) == EntIno(d, k) && EntName(d', k) == EntName(d, k)
    {
      assert d'[DIRENT_SIZE * k..DIRENT_SIZE * k + DIRENT_SIZE] == d[DIRENT_SIZE * k..DIRENT_SIZE * k + DIRENT_SIZE];
      assert d'[DIRENT_SIZE * k..DIRENT_SIZE * k + 4] == d'[DIRENT_SIZE * k..DIRENT_SIZE * k + DIRENT_SIZE][..4];
      assert d[DIRENT_SIZE * k..DIRENT_SIZE * k + 4] == d[DIRENT_SIZE * k..DIRENT_SIZE * k + DIRENT_SIZE][..4];
      assert d'[DIRENT_SIZE * k + 4..DIRENT_SIZE * k + DIRENT_SIZE]
        == d'[DIRENT_SIZE * k..DIRENT_SIZE * k + DIRENT_SIZE][4..];
      assert d[DIRENT_SIZE * k + 4..DIRENT_SIZE * k + DIRENT_SIZE]
        == d[DIRENT_SIZE * k..DIRENT_SIZE * k + DIRENT_SIZE][4..];
    }
  }

  // The two entries idirinit writes into a new directory.
  ghost predicate OnlyDots(d: seq<byte>, ino: nat, parent: nat) {
    && |d| == 2 * DIRENT_SIZE
    && EntIno(d, 0) == ino && EntName(d, 0) == DOT
    && EntIno(d, 1) == parent && EntName(d, 1) == DOTDOT
  }

  // The first entry called name, from entry k on; the number of entries if there is none.
  function EntryFrom(c: seq<byte>, name: seq<byte>, k: nat): (e: nat)
    requires k <= Count(c)
    ensures k <= e <= Count(c) && (e < Count(c) ==> Names(c, e, name))
    ensures forall l: nat | k <= l < e :: !Names(c, l, name)
    decreases Count(c) - k
  {
    if k == Count(c) || Names(c, k, name) then k else EntryFrom(c, name, k + 1)
  }

  // The inode a directory gives for a name; 0 if it has no such name.
  function LookupIno(c: seq<byte>, name: seq<byte>): u32 {
    var e := EntryFrom(c, name, 0);
    if e < Count(c) then EntIno(c, e) else 0
  }

  lemma FirstEntry(c: seq<byte>, name: seq<byte>, k: nat)
    requires k <= Count(c) && (k < Count(c) ==> Names(c, k, name)) && forall l: nat | l < k :: !Names(c, l, name)
    ensures EntryFrom(c, name, 0) == k
    ensures LookupIno(c, name) == if k < Count(c) then EntIno(c, k) else 0
    ensures LookupIno(c, name) == 0 <==> Absent(c, name)
  {}
}

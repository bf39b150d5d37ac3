// Path names: their elements, and kernel/src/fs.c's skipelem (lines 261-278).
module Paths {
  import opened Bytes
  import opened Dirents
  import opened Layout
  import opened Files

  const SLASH: byte := 47

  // The text between slashes, empty pieces included.
  function Pieces(p: seq<byte>): (r: seq<seq<byte>>)
    ensures |r| >= 1
  {
    if p == [] then [[]]
    else if p[0] == SLASH then [[]] + Pieces(p[1..])
    else var r := Pieces(p[1..]); [[p[0]] + r[0]] + r[1..]
  }

  // A name is cut to MAX_NAME bytes.
  function Cut(n: seq<byte>): (r: seq<byte>)
    ensures |r| <= MAX_NAME
  {
    if |n| >= MAX_NAME then n[..MAX_NAME] else n
  }

  function Elements(ps: seq<seq<byte>>): seq<seq<byte>> {
    if ps == [] then []
    else if ps[0] == [] then Elements(ps[1..])
    else [Cut(ps[0])] + Elements(ps[1..])
  }

  // The names a path goes through, in order.
  function Comps(p: seq<byte>): seq<seq<byte>> { Elements(Pieces(p)) }

  lemma CompsSlash(p: seq<byte>)
    requires p != [] && p[0] == SLASH
    ensures Comps(p) == Comps(p[1..])
  {
    assert Pieces(p)[1..] == Pieces(p[1..]);
  }

  lemma {:induction false} PiecesWord(w: seq<byte>, rest: seq<byte>)
    requires SLASH !in w && (rest == [] || rest[0] == SLASH)
    ensures Pieces(w + rest) == [w] + Pieces(rest)[1..]
  {
    if w == [] {
      assert w + rest == rest;
      assert Pieces(rest)[0] == [];
      assert Pieces(rest) == [[]] + Pieces(rest)[1..];
    } else {
      var p := w + rest;
      assert p[0] == w[0] && p[0] in w && p[1..] == w[1..] + rest;
      PiecesWord(w[1..], rest);
      assert [w[0]] + w[1..] == w;
    }
  }

  lemma CompsWord(w: seq<byte>, rest: seq<byte>)
    requires w != [] && SLASH !in w && (rest == [] || rest[0] == SLASH)
    ensures Comps(w + rest) == [Cut(w)] + Comps(rest)
  {
    PiecesWord(w, rest);
    assert Pieces(w + rest)[1..] == Pieces(rest)[1..];
    assert Pieces(rest) == [[]] + Pieces(rest)[1..];
  }

  lemma CompsNone(p: seq<byte>)
    requires p != [] && p[0] != SLASH
    ensures Comps(p) != []
  {}

  lemma CompsAreNames(p: seq<byte>)
    requires 0 !in p
    ensures forall n | n in Comps(p) :: |n| <= MAX_NAME && 0 !in n
  {
    PiecesClean(p);
    ElementsClean(Pieces(p));
  }

  lemma {:induction false} PiecesClean(p: seq<byte>)
    requires 0 !in p
    ensures forall n | n in Pieces(p) :: 0 !in n
  {
    if p != [] {
      assert p[0] in p;
      assert 0 !in p[1..];
      PiecesClean(p[1..]);
    }
  }

  lemma {:induction false} ElementsClean(ps: seq<seq<byte>>)
    requires forall n | n in ps :: 0 !in n
    ensures forall n | n in Elements(ps) :: 0 !in n && |n| <= MAX_NAME
  {
    if ps != [] {
      assert ps[0] in ps;
      assert 0 !in Cut(ps[0]) by { forall x | x in Cut(ps[0]) ensures x in ps[0] {} }
      ElementsClean(ps[1..]);
    }
  }

  // Cut the first name off a path: the rest of the path (none if there is no name) and the name.
  // The rest has no leading slash, so it is empty exactly when the name was the last one.
  method Skipelem(path: seq<byte>) returns (found: bool, rest: seq<byte>, name: Name)
    requires 0 !in path
    ensures found <==> Comps(path) != []
    ensures found ==> Comps(path) == [name] + Comps(rest)
    ensures found ==> (rest == [] <==> Comps(rest) == []) && 0 !in rest
  {
    var i := 0;
    while i < |path| && path[i] == SLASH
      invariant 0 <= i <= |path| && Comps(path[i..]) == Comps(path)
    {
      CompsSlash(path[i..]);
      assert path[i..][1..] == path[i + 1..];
      i := i + 1;
    }
    if i == |path| {
      assert path[i..] == [];
      assert Comps([]) == [] by { assert Pieces([]) == [[]]; }
      return false, [], [];
    }
    CompsNone(path[i..]);
    var s := i;
    while i < |path| && path[i] != SLASH
      invariant s <= i <= |path| && SLASH !in path[s..i] && (i == s ==> path[i..] != [])
    {
      i := i + 1;
    }
    ghost var w, tail := path[s..i], path[i..];
    assert path[s..] == w + tail;
    CompsWord(w, tail);
    var len := i - s;
    if len >= MAX_NAME {
      name := path[s..s + MAX_NAME];
    } else {
      name := path[s..s + len];
    }
    assert name == Cut(w);
    while i < |path| && path[i] == SLASH
      invariant s <= i <= |path| && Comps(path[i..]) == Comps(tail)
    {
      CompsSlash(path[i..]);
      assert path[i..][1..] == path[i + 1..];
      i := i + 1;
    }
    rest := path[i..];
    if rest != [] { CompsNone(rest); } else { assert Comps([]) == [] by { assert Pieces([]) == [[]]; } }
    return true, rest, name;
  }

  // ---- what a path means ----

  // Walk a list of names from inode i; 0 when some name is missing or is looked up in
  // something that is not a directory.
  function Resolve(f: seq<File>, i: nat, cs: seq<seq<byte>>): nat
    decreases |cs|
  {
    if cs == [] then i
    else if i == 0 || i >= |f| || f[i].typ != TYPE_DIR then 0
    else Resolve(f, LookupIno(f[i].data, cs[0]), cs[1..])
  }

  lemma {:induction false} ResolveLast(f: seq<File>, i: nat, cs: seq<seq<byte>>, c: seq<byte>)
    ensures Resolve(f, i, cs + [c]) == Resolve(f, Resolve(f, i, cs), [c])
    decreases |cs|
  {
    if cs == [] {
      assert cs + [c] == [c];
    } else if !(i == 0 || i >= |f| || f[i].typ != TYPE_DIR) {
      assert (cs + [c])[1..] == cs[1..] + [c];
      ResolveLast(f, LookupIno(f[i].data, cs[0]), cs[1..], c);
    }
  }
}

// Where paths lead: laws about opening by name that say it step by step, from the directory the walk
// starts in to the last name.
module PathLaws {
  import opened Bytes
  import opened Layout
  import opened Files
  import opened Dirents
  import opened Inodes
  import opened Paths
  import opened Namespace
  import opened Namei

  // ---- names and slashes ----

  predicate HasName(p: seq<byte>) { exists k :: 0 <= k < |p| && p[k] != SLASH }

  // A path that starts in the working directory.
  predicate Relative(p: seq<byte>) { p != [] && p[0] != SLASH }

  lemma {:induction false} PiecesOn(p: seq<byte>, q: seq<byte>)
    ensures Pieces(p + [SLASH] + q) == Pieces(p) + Pieces(q)
  {
    var all := p + [SLASH] + q;
    if p == [] {
      assert all[1..] == q;
      assert Pieces(p) == [[]];
    } else {
      assert all[0] == p[0] && all[1..] == p[1..] + [SLASH] + q;
      PiecesOn(p[1..], q);
    }
  }

  lemma {:induction false} ElementsOn(a: seq<seq<byte>>, b: seq<seq<byte>>)
    ensures Elements(a + b) == Elements(a) + Elements(b)
  {
    if a == [] {
      assert a + b == b;
    } else {
      assert (a + b)[0] == a[0] && (a + b)[1..] == a[1..] + b;
      ElementsOn(a[1..], b);
    }
  }

  lemma CompsOn(p: seq<byte>, q: seq<byte>)
    ensures Comps(p + [SLASH] + q) == Comps(p) + Comps(q)
  {
    PiecesOn(p, q);
    ElementsOn(Pieces(p), Pieces(q));
  }

  lemma {:induction false} NamesThere(p: seq<byte>)
    ensures Comps(p) != [] <==> HasName(p)
    decreases |p|
  {
    if p != [] {
      if p[0] != SLASH {
        CompsNone(p);
      } else {
        CompsSlash(p);
        NamesThere(p[1..]);
        assert forall k | 0 <= k < |p[1..]| :: p[1..][k] == p[k + 1];
        assert HasName(p) ==> HasName(p[1..]) by {
          if k :| 0 <= k < |p| && p[k] != SLASH { assert p[1..][k - 1] == p[k]; }
        }
      }
    }
  }

  lemma {:induction false} ResolveOn(f: seq<File>, i: nat, a: seq<seq<byte>>, b: seq<seq<byte>>)
    ensures Resolve(f, i, a + b) == Resolve(f, Resolve(f, i, a), b)
    decreases |a|
  {
    if a == [] {
      assert a + b == b;
    } else if !(i == 0 || i >= |f| || f[i].typ != TYPE_DIR) {
      assert (a + b)[0] == a[0] && (a + b)[1..] == a[1..] + b;
      ResolveOn(f, LookupIno(f[i].data, a[0]), a[1..], b);
    }
  }

  lemma WordComps(w: seq<byte>)
    requires w != [] && SLASH !in w
    ensures Comps(w) == [Cut(w)]
  {
    CompsWord(w, []);
    assert w + [] == w;
    assert Comps([]) == [] by { assert Pieces([]) == [[]]; }
  }

  // ---- where a path leads ----

  // One name without a slash: the working directory is asked for it, and it is the parent.
  lemma OneName(f: seq<File>, w: seq<byte>, d: nat)
    requires 0 < d < |f| && f[d].typ == TYPE_DIR && w != [] && SLASH !in w
    ensures |w| <= MAX_NAME ==> Target(f, w, d) == LookupIno(f[d].data, w)
    ensures |w| > MAX_NAME ==> Target(f, w, d) == LookupIno(f[d].data, w[..MAX_NAME])
    ensures ParentOf(f, w, d) == d && Comps(w) != []
    ensures LastName(w) == if |w| > MAX_NAME then w[..MAX_NAME] else w
  {
    WordComps(w);
    assert w[0] in w;
    assert |w| == MAX_NAME ==> w[..MAX_NAME] == w;
    var one := [Cut(w)];
    assert one[..0] == [] && one[1..] == [];
    assert Target(f, w, d) == Resolve(f, d, one) == Resolve(f, LookupIno(f[d].data, one[0]), []);
  }

  // In what is not a directory no name is found.
  lemma NoDirectory(f: seq<File>, w: seq<byte>, d: nat)
    requires d == 0 || d >= |f| || f[d].typ != TYPE_DIR
    requires Relative(w)
    ensures Target(f, w, d) == 0 && ParentOf(f, w, d) == 0
  {
    CompsNone(w);
    var cs := Comps(w);
    assert |cs| > 1 ==> cs[..|cs| - 1][0] == cs[0];
  }

  // A leading slash: the walk starts in the root.
  lemma FromRoot(f: seq<File>, q: seq<byte>, d: nat)
    requires Relative(q)
    ensures Target(f, [SLASH] + q, d) == Target(f, q, ROOT_INO)
    ensures ParentOf(f, [SLASH] + q, d) == ParentOf(f, q, ROOT_INO)
    ensures Comps(q) != [] && Comps([SLASH] + q) == Comps(q)
  {
    assert ([SLASH] + q)[1..] == q;
    CompsSlash([SLASH] + q);
    CompsNone(q);
  }

  // A longer path: its rest is walked from where its first part leads.
  lemma StepByStep(f: seq<File>, p: seq<byte>, q: seq<byte>, d: nat)
    requires HasName(p) && Relative(q)
    ensures Target(f, p + [SLASH] + q, d) == Target(f, q, Target(f, p, d))
    ensures ParentOf(f, p + [SLASH] + q, d) == ParentOf(f, q, Target(f, p, d))
    ensures Comps(q) != [] && Comps(p + [SLASH] + q) != [] && LastName(p + [SLASH] + q) == LastName(q)
  {
    hide Comps, Resolve;
    NamesThere(p);
    CompsNone(q);
    CompsOn(p, q);
    var a, b, start := Comps(p), Comps(q), StartOf(p, d);
    assert (p + [SLASH] + q)[0] == p[0];
    ResolveOn(f, start, a, b);
    ResolveOn(f, start, a, b[..|b| - 1]);
    assert (a + b)[..|a + b| - 1] == a + b[..|b| - 1];
  }

  // Slashes that are repeated or trail do not count.
  lemma SpareSlash(f: seq<File>, p: seq<byte>, q: seq<byte>, d: nat)
    requires p != []
    ensures Target(f, p + [SLASH] + [SLASH] + q, d) == Target(f, p + [SLASH] + q, d)
    ensures Target(f, p + [SLASH], d) == Target(f, p, d)
  {
    hide Resolve;
    CompsOn(p, [SLASH] + q);
    CompsOn(p, q);
    CompsOn(p, []);
    assert p + [SLASH] + [] == p + [SLASH] && p + [SLASH] + ([SLASH] + q) == p + [SLASH] + [SLASH] + q;
    assert ([SLASH] + q)[1..] == q;
    CompsSlash([SLASH] + q);
    assert Comps([]) == [] by { assert Pieces([]) == [[]]; }
    assert Comps(p) + [] == Comps(p);
  }

  // A path without a name: the root if there are slashes, nothing at all if it is empty.
  lemma NoName(f: seq<File>, p: seq<byte>, d: nat)
    requires !HasName(p)
    ensures Target(f, p, d) == if p == [] then 0 else ROOT_INO
    ensures ParentOf(f, p, d) == 0
  {
    NamesThere(p);
  }

  // ---- the dots ----

  // What stands in the first two entries.
  lemma DotsAt(f: seq<File>, t: seq<Inode>, d: nat)
    requires System(f, t) && d < INUM && f[d].typ == TYPE_DIR
    ensures var c := f[d].data;
      Names(c, 0, DOT) && Names(c, 1, DOTDOT) && EntIno(c, 0) == d && EntIno(c, 1) == Ino(NodesOf(f), d, 1)
  {
    var ns := NodesOf(f);
    var home :| Tree(ns, home) && Marks(ns, t, home);
    hide Marks, Targets, Entered, Homes, DotDots, EntIno, EntName;
    assert IsDir(ns, d);
    assert ns[d].entries == EntriesOf(f[d].data) && |ns[d].entries| == Count(f[d].data);
    assert NameOf(ns, d, 0) == EntName(f[d].data, 0) && NameOf(ns, d, 1) == EntName(f[d].data, 1);
  }

  // "." is the directory itself.
  lemma Dot(f: seq<File>, t: seq<Inode>, d: nat)
    requires System(f, t) && d < INUM && f[d].typ == TYPE_DIR
    ensures Target(f, DOT, d) == d
  {
    DotsAt(f, t, d);
    hide System, EntIno, EntName, LookupIno, Target, ParentOf;
    FirstEntry(f[d].data, DOT, 0);
    SystemRoot(f, t);
    OneName(f, DOT, d);
  }

  // A directory that is entered in p has p as its parent.
  lemma EntryUp(f: seq<File>, t: seq<Inode>, p: nat, k: nat, d: nat)
    requires System(f, t) && IsDir(NodesOf(f), d) && k >= 2 && d != 0 && Ino(NodesOf(f), p, k) == d
    ensures Ino(NodesOf(f), d, 1) == p
  {
    var ns := NodesOf(f);
    var home :| Tree(ns, home) && Marks(ns, t, home);
    hide Targets, Homes, Shapes, Marks, NodesOf, Ino;
  }

  lemma RootUp(f: seq<File>, t: seq<Inode>)
    requires System(f, t)
    ensures Ino(NodesOf(f), ROOT_INO, 1) == ROOT_INO
  {
    var home :| Tree(NodesOf(f), home) && Marks(NodesOf(f), t, home);
    hide Targets, Entered, Homes, Shapes, Marks, NodesOf, Ino;
  }

  // A name other than the dots stands behind the dots.
  lemma NameBehindDots(f: seq<File>, t: seq<Inode>, p: nat, w: Name, k: nat)
    requires System(f, t) && p < INUM && f[p].typ == TYPE_DIR && Names(f[p].data, k, w) && w != DOT && w != DOTDOT
    ensures k >= 2
  {
    DotsAt(f, t, p);
  }

  // ".." is the directory that has d under some name, and the root is its own parent.
  lemma DotDot(f: seq<File>, t: seq<Inode>, p: nat, w: Name, d: nat)
    requires System(f, t) && p < INUM && f[p].typ == TYPE_DIR && 0 < d < INUM && f[d].typ == TYPE_DIR
    requires w != DOT && w != DOTDOT && LookupIno(f[p].data, w) == d
    ensures Target(f, DOTDOT, d) == p
    ensures Target(f, DOTDOT, ROOT_INO) == ROOT_INO
  {
    hide System, EntIno, EntName, Target;
    SystemRoot(f, t);
    var k := EntryFrom(f[p].data, w, 0);
    NameBehindDots(f, t, p, w, k);
    NodeEntry(f, p, k);
    RootUp(f, t);
    DotDotEntry(f, t, d);
    DotDotEntry(f, t, ROOT_INO);
    assert IsDir(NodesOf(f), d);
    EntryUp(f, t, p, k, d);
  }

  lemma DotDotEntry(f: seq<File>, t: seq<Inode>, d: nat)
    requires System(f, t) && d < INUM && f[d].typ == TYPE_DIR
    ensures Target(f, DOTDOT, d) == Ino(NodesOf(f), d, 1)
  {
    DotsAt(f, t, d);
    hide System, EntIno, EntName, LookupIno, Target, ParentOf;
    FirstEntry(f[d].data, DOTDOT, 1);
    SystemRoot(f, t);
    OneName(f, DOTDOT, d);
  }

  // Down into a directory and up again leads back.
  lemma DownAndUp(f: seq<File>, t: seq<Inode>, p: nat, w: Name)
    requires System(f, t) && p < INUM && f[p].typ == TYPE_DIR
    requires w != [] && SLASH !in w && w != DOT && w != DOTDOT
    requires LookupIno(f[p].data, w) < INUM && f[LookupIno(f[p].data, w)].typ == TYPE_DIR
    ensures Target(f, w + [SLASH] + DOTDOT, p) == p
  {
    hide System, Target, ParentOf, LookupIno;
    SystemRoot(f, t);
    var d := LookupIno(f[p].data, w);
    DotDot(f, t, p, w, d);
    OneName(f, w, p);
    assert w[0] in w;
    assert HasName(w);
    StepByStep(f, w, DOTDOT, p);
  }
}

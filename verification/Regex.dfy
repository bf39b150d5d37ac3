// user/src/phase6/grep.c, lines 62-102: the matcher for ^ . * $, against the set of strings a
// pattern stands for.
module Regex {

  // A pattern is a list of items, each for one character or for any number of them, and may be tied
  // to the end of the text. The character '.' stands for every character.
  datatype Item = One(c: char) | Star(c: char)
  datatype Pattern = Pattern(items: seq<Item>, toEnd: bool)

  // What the characters of a pattern mean; c* wins over $ and over c itself.
  function Parse(re: string): Pattern {
    if re == [] then Pattern([], false)
    else if |re| >= 2 && re[1] == '*' then var p := Parse(re[2..]); Pattern([Star(re[0])] + p.items, p.toEnd)
    else if re == "$" then Pattern([], true)
    else var p := Parse(re[1..]); Pattern([One(re[0])] + p.items, p.toEnd)
  }

  // ---- the language of a pattern ----

  predicate Accepts(c: char, x: char) { c == '.' || c == x }

  predicate PieceOf(i: Item, w: string) {
    match i
    case One(c) => |w| == 1 && Accepts(c, w[0])
    case Star(c) => forall k | 0 <= k < |w| :: Accepts(c, w[k])
  }

  function Join(pieces: seq<string>): string {
    if pieces == [] then [] else pieces[0] + Join(pieces[1..])
  }

  ghost predicate Splits(items: seq<Item>, pieces: seq<string>, w: string) {
    |pieces| == |items| && Join(pieces) == w && forall k | 0 <= k < |items| :: PieceOf(items[k], pieces[k])
  }

  // w is made of one piece for each item, in order.
  ghost predicate InLanguage(items: seq<Item>, w: string) {
    exists pieces :: Splits(items, pieces, w)
  }

  // The pattern matches some text from the start of `text` on.
  ghost predicate Here(p: Pattern, text: string) {
    exists j: nat :: j <= |text| && InLanguage(p.items, text[..j]) && (p.toEnd ==> j == |text|)
  }

  // ... or a substring anywhere, unless a leading ^ ties it to the start.
  ghost predicate Matches(re: string, text: string) {
    if re != [] && re[0] == '^' then Here(Parse(re[1..]), text)
    else exists i: nat :: i <= |text| && Here(Parse(re), text[i..])
  }

  // ---- taking off the first item ----

  lemma SplitsCons(i: Item, rest: seq<Item>, piece: string, w: string)
    requires PieceOf(i, piece) && InLanguage(rest, w)
    ensures InLanguage([i] + rest, piece + w)
  {
    var pieces :| Splits(rest, pieces, w);
    var all := [piece] + pieces;
    assert all[1..] == pieces;
    assert Splits([i] + rest, all, piece + w);
  }

  lemma SplitsUncons(i: Item, rest: seq<Item>, w: string) returns (piece: string)
    requires InLanguage([i] + rest, w)
    ensures piece <= w && PieceOf(i, piece) && InLanguage(rest, w[|piece|..])
  {
    var items := [i] + rest;
    var pieces :| Splits(items, pieces, w);
    piece := pieces[0];
    assert items[0] == i;
    assert w[|piece|..] == Join(pieces[1..]);
    forall k | 0 <= k < |rest| ensures PieceOf(rest[k], pieces[1..][k]) { assert items[k + 1] == rest[k]; }
    assert Splits(rest, pieces[1..], w[|piece|..]);
  }

  lemma HereEmpty(text: string, toEnd: bool)
    ensures Here(Pattern([], toEnd), text) <==> !toEnd || text == []
  {
    assert Splits([], [], text[..0]);
    forall w: string | InLanguage([], w) ensures w == [] {
      var pieces :| Splits([], pieces, w);
    }
    if !toEnd || text == [] {
      var j: nat := 0;
      assert InLanguage([], text[..j]);
    } else {
      assert text[..|text|] == text;
    }
  }

  lemma HereOne(c: char, p: Pattern, text: string)
    ensures Here(Pattern([One(c)] + p.items, p.toEnd), text) <==>
      text != [] && Accepts(c, text[0]) && Here(p, text[1..])
  {
    var q := Pattern([One(c)] + p.items, p.toEnd);
    if Here(q, text) {
      var j: nat :| j <= |text| && InLanguage(q.items, text[..j]) && (p.toEnd ==> j == |text|);
      var piece := SplitsUncons(One(c), p.items, text[..j]);
      assert text[..j][1..] == text[1..][..j - 1];
    }
    if text != [] && Accepts(c, text[0]) && Here(p, text[1..]) {
      var j: nat :| j <= |text[1..]| && InLanguage(p.items, text[1..][..j]) && (p.toEnd ==> j == |text[1..]|);
      SplitsCons(One(c), p.items, text[..1], text[1..][..j]);
      assert text[..1] + text[1..][..j] == text[..j + 1];
    }
  }

  // The star takes k characters, for some k.
  lemma HereStar(c: char, p: Pattern, text: string)
    ensures Here(Pattern([Star(c)] + p.items, p.toEnd), text) <==> exists k: nat :: StarTakes(c, p, text, k)
  {
    var q := Pattern([Star(c)] + p.items, p.toEnd);
    if Here(q, text) {
      var j: nat :| j <= |text| && InLanguage(q.items, text[..j]) && (p.toEnd ==> j == |text|);
      var piece := SplitsUncons(Star(c), p.items, text[..j]);
      var k := |piece|;
      assert text[..j][k..] == text[k..][..j - k];
      forall m | 0 <= m < k ensures Accepts(c, text[m]) { assert piece[m] == text[m]; }
      assert StarTakes(c, p, text, k);
    }
    if k: nat :| StarTakes(c, p, text, k) {
      var j: nat :| j <= |text[k..]| && InLanguage(p.items, text[k..][..j]) && (p.toEnd ==> j == |text[k..]|);
      SplitsCons(Star(c), p.items, text[..k], text[k..][..j]);
      assert text[..k] + text[k..][..j] == text[..j + k];
    }
  }

  ghost predicate StarTakes(c: char, p: Pattern, text: string, k: nat) {
    k <= |text| && (forall m | 0 <= m < k :: Accepts(c, text[m])) && Here(p, text[k..])
  }

  // ---- the matcher ----
  // A char* is the string that begins there; *p is '\0' at its end.

  method MatchHere(re: string, text: string) returns (r: bool)
    ensures r <==> Here(Parse(re), text)
    decreases 2 * |re|
  {
    hide Here, StarTakes;
    HereEmpty(text, false);
    HereEmpty(text, true);
    if re == [] { return true; }
    if |re| >= 2 && re[1] == '*' {
      ghost var p := Parse(re[2..]);
      ghost var q := Pattern([Star(re[0])] + p.items, p.toEnd);
      assert Parse(re) == q;
      HereStar(re[0], p, text);
      r := MatchStar(re[0], re[2..], text, p);
      return;
    }
    if re[0] == '$' && |re| == 1 { return text == []; }
    HereOne(re[0], Parse(re[1..]), text);
    if text != [] && (re[0] == '.' || re[0] == text[0]) {
      r := MatchHere(re[1..], text[1..]);
      return;
    }
    return false;
  }

  method MatchStar(c: char, re: string, text: string, ghost p: Pattern) returns (r: bool)
    requires p == Parse(re)
    ensures r <==> exists k: nat :: StarTakes(c, p, text, k)
    decreases 2 * |re| + 1
  {
    hide Here;
    var k := 0;
    while true
      invariant k <= |text| && (forall m | 0 <= m < k :: Accepts(c, text[m]))
      invariant forall l: nat | l < k :: !StarTakes(c, p, text, l)
      decreases |text| - k
    {
      var found := MatchHere(re, text[k..]);
      if found {
        assert StarTakes(c, p, text, k);
        return true;
      }
      if k == |text| || !(text[k] == c || c == '.') { return false; }
      k := k + 1;
    }
  }

  method Match(re: string, text: string) returns (r: bool)
    ensures r <==> Matches(re, text)
  {
    hide Here;
    if re != [] && re[0] == '^' {
      r := MatchHere(re[1..], text);
      return;
    }
    var i := 0;
    while true
      invariant i <= |text|
      invariant forall l: nat | l < i :: !Here(Parse(re), text[l..])
      decreases |text| - i
    {
      var found := MatchHere(re, text[i..]);
      if found { return true; }
      if i == |text| { return false; }
      i := i + 1;
    }
  }
}

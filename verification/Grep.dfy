// user/src/phase6/grep.c, lines 8-32: lines are found in a buffer that fills up piece by piece.
module Grep {
  import opened Regex

  const BUFSIZE := 1024
  const NL := '\n'
  const NUL := '\0'

  // The first newline of s, |s| if there is none.
  function LineEnd(s: string): (k: nat)
    ensures k <= |s| && (k < |s| ==> s[k] == NL) && forall j | 0 <= j < k :: s[j] != NL
  {
    if s == [] || s[0] == NL then 0 else 1 + LineEnd(s[1..])
  }

  // A line the program can deal with: with its newline it fits the buffer, and it holds no NUL.
  predicate Fits(line: string) { |line| + 1 < BUFSIZE && NUL !in line }

  // What grep writes for a file: the newline-terminated lines that match, up to the first line that
  // is too long or contains a NUL. What follows the last newline is not a line.
  ghost function Output(re: string, data: string): (out: string)
    decreases |data|
  {
    var k := LineEnd(data);
    if k == |data| || !Fits(data[..k]) then []
    else (if Matches(re, data[..k]) then data[..k + 1] else []) + Output(re, data[k + 1..])
  }

  lemma LineEndIs(s: string, k: nat)
    requires k < |s| && s[k] == NL && forall j | 0 <= j < k :: s[j] != NL
    ensures LineEnd(s) == k
  {}

  // The complete lines of the file in order, without their newlines.
  function Lines(data: string): (ls: seq<string>)
    decreases |data|
  {
    var k := LineEnd(data);
    if k == |data| then [] else [data[..k]] + Lines(data[k + 1..])
  }

  ghost function Chosen(re: string, ls: seq<string>): string {
    if ls == [] then [] else (if Matches(re, ls[0]) then ls[0] + [NL] else []) + Chosen(re, ls[1..])
  }

  // If all lines fit, the output is just the lines that match.
  lemma {:induction false} OutputIsChosen(re: string, data: string)
    requires forall l | l in Lines(data) :: Fits(l)
    ensures Output(re, data) == Chosen(re, Lines(data))
    decreases |data|
  {
    hide Matches, Fits;
    var k := LineEnd(data);
    if k < |data| {
      assert Lines(data)[0] == data[..k] && Lines(data)[1..] == Lines(data[k + 1..]);
      assert data[..k + 1] == data[..k] + [NL];
      OutputIsChosen(re, data[k + 1..]);
    }
  }

  // strchr(p, '\n'): the newline, unless a NUL comes first.
  method Strchr(buf: array<char>, p: nat, ghost m: nat) returns (q: nat, found: bool)
    requires p <= m < buf.Length && buf[m] == NUL
    ensures p <= q <= m && (forall j | p <= j < q :: buf[j] != NL && buf[j] != NUL)
    ensures if found then q < m && buf[q] == NL else buf[q] == NUL
  {
    q := p;
    while buf[q] != NUL && buf[q] != NL
      invariant p <= q <= m && forall j | p <= j < q :: buf[j] != NL && buf[j] != NUL
      decreases m - q
    {
      q := q + 1;
    }
    found := buf[q] == NL;
  }

  // read: at least one byte if there is one and room for it, possibly fewer than asked for.
  function ReadCount(room: nat, left: nat, wish: nat): (n: nat)
    ensures n <= room && n <= left && (n == 0 <==> room == 0 || left == 0)
  {
    var most := if room < left then room else left;
    if wish == 0 || wish > most then most else wish
  }

  // One line, from p to the newline at q: written if it matches.
  method OneLine(re: string, buf: array<char>, p: nat, q: nat, ghost m: nat) returns (out: string)
    requires p <= q < m < buf.Length && buf[q] == NL
    modifies buf
    ensures out == if Matches(re, old(buf[p..q])) then old(buf[p..q + 1]) else []
    ensures buf[q + 1..m] == old(buf[q + 1..m]) && buf[m] == old(buf[m])
  {
    hide Matches;
    out := [];
    buf[q] := NUL;
    assert buf[p..q] == old(buf[p..q]);
    var hit := Match(re, buf[p..q]);
    if hit {
      buf[q] := NL;
      out := buf[p..q + 1];
      assert out == old(buf[p..q + 1]);
    }
  }

  // Writing one line takes it off what is still to be written.
  method NextLine(re: string, buf: array<char>, p: nat, q: nat, m: nat, ghost rest: string) returns (line: string)
    requires p <= q < m < buf.Length == BUFSIZE && buf[q] == NL
      && forall j | p <= j < q :: buf[j] != NL && buf[j] != NUL
    modifies buf
    ensures line + Output(re, buf[q + 1..m] + rest) == Output(re, old(buf[p..m]) + rest) && buf[m] == old(buf[m])
  {
    hide Output, Matches;
    ghost var before := buf[p..m];
    TakeLine(re, before, q - p, rest);
    assert buf[p..q] == before[..q - p] && buf[p..q + 1] == before[..q - p + 1] && buf[q + 1..m] == before[q - p + 1..];
    line := OneLine(re, buf, p, q, m);
  }

  // The lines complete in buf[..m]: write those that match, move the rest to the front.
  method Drain(re: string, buf: array<char>, m: nat, ghost rest: string) returns (out: string, m': nat)
    requires buf.Length == BUFSIZE && m < BUFSIZE
    modifies buf
    ensures m' <= m && out + Output(re, buf[..m'] + rest) == Output(re, old(buf[..m]) + rest)
    ensures Incomplete(buf[..m'])
  {
    hide Output, Incomplete, Matches;
    ghost var all := buf[..m] + rest;
    out := [];
    buf[m] := NUL;
    var p := 0;
    assert buf[..m] == old(buf[..m]);
    var q, found := Strchr(buf, p, m);
    while found
      invariant p <= q <= m && buf[m] == NUL && (forall j | p <= j < q :: buf[j] != NL && buf[j] != NUL)
      invariant if found then q < m && buf[q] == NL else buf[q] == NUL
      invariant out + Output(re, buf[p..m] + rest) == Output(re, all)
      decreases m - p, found
    {
      ghost var before := Output(re, buf[p..m] + rest);
      var line := NextLine(re, buf, p, q, m, rest);
      Append(out, line, Output(re, buf[q + 1..m] + rest), before, Output(re, all));
      out := out + line;
      p := q + 1;
      q, found := Strchr(buf, p, m);
    }
    m' := m - p;
    ghost var tail := buf[p..m];
    IncompleteIs(tail, q - p);
    Memmove(buf, p, m');
  }

  method Memmove(buf: array<char>, p: nat, n: nat)
    requires p + n <= buf.Length
    modifies buf
    ensures buf[..n] == old(buf[p..p + n])
  {
    forall i | 0 <= i < n { buf[i] := buf[p + i]; }
    assert buf[..n] == old(buf[p..p + n]);
  }

  // No line is complete in s, as far as strchr can see.
  ghost predicate Incomplete(s: string) {
    NL !in s || exists k: nat :: k < |s| && s[k] == NUL && NL !in s[..k]
  }

  lemma IncompleteIs(s: string, k: nat)
    requires k <= |s| && (forall j | 0 <= j < k :: s[j] != NL) && (k < |s| ==> s[k] == NUL)
    ensures Incomplete(s)
  {
    if k < |s| { assert NL !in s[..k]; }
  }

  lemma TakeLine(re: string, s: string, k: nat, rest: string)
    requires k < |s| < BUFSIZE && s[k] == NL && forall j | 0 <= j < k :: s[j] != NL && s[j] != NUL
    ensures Output(re, s + rest) == (if Matches(re, s[..k]) then s[..k + 1] else []) + Output(re, s[k + 1..] + rest)
  {
    var data := s + rest;
    LineEndIs(data, k);
    assert data[..k] == s[..k] && data[..k + 1] == s[..k + 1] && data[k + 1..] == s[k + 1..] + rest;
  }

  // With a full buffer, or nothing more to come, an incomplete line ends the output.
  lemma NoMore(re: string, s: string, rest: string)
    requires Incomplete(s) && (|s| == BUFSIZE - 1 || rest == [])
    ensures Output(re, s + rest) == []
  {
    var data := s + rest;
    var k := LineEnd(data);
    if k < |data| {
      if NL !in s {
        assert k >= |s|;
      } else {
        var z: nat :| z < |s| && s[z] == NUL && NL !in s[..z];
        assert data[z] == NUL;
        assert k >= z by {
          assert forall j | 0 <= j < z :: s[j] in s[..z] && data[j] == s[j];
        }
        assert k > z ==> data[..k][z] == NUL;
      }
    }
  }

  // n bytes of the input into the buffer, behind the first m.
  method Read(buf: array<char>, m: nat, input: string, at: nat, n: nat)
    requires m + n <= buf.Length && at + n <= |input|
    modifies buf
    ensures buf[..m + n] + input[at + n..] == old(buf[..m]) + input[at..]
  {
    ghost var had := buf[..m];
    forall i | 0 <= i < n { buf[m + i] := input[at + i]; }
    assert buf[..m + n] == had + input[at..at + n] && input[at..] == input[at..at + n] + input[at + n..];
  }

  function Wish(wishes: seq<nat>, t: nat): nat { if t < |wishes| then wishes[t] else 0 }

  lemma Append(a: string, b: string, c: string, d: string, e: string)
    requires b + c == d && a + d == e
    ensures (a + b) + c == e
  {}

  // However the bytes arrive, the output is the same.
  method Grep(re: string, input: string, wishes: seq<nat>) returns (out: string)
    ensures out == Output(re, input)
  {
    hide Output, Incomplete, ReadCount, Wish;
    var buf := new char[BUFSIZE];
    var m: nat, at: nat, t: nat := 0, 0, 0;
    out := [];
    assert buf[..0] + input[0..] == input;
    IncompleteIs(buf[..0], 0);
    var n := ReadCount(BUFSIZE - m - 1, |input| - at, Wish(wishes, t));
    while n > 0
      invariant m < BUFSIZE && at <= |input| && Incomplete(buf[..m])
      invariant out + Output(re, buf[..m] + input[at..]) == Output(re, input)
      invariant n == ReadCount(BUFSIZE - m - 1, |input| - at, Wish(wishes, t))
      decreases |input| - at
    {
      Read(buf, m, input, at, n);
      m, at, t := m + n, at + n, t + 1;
      var more;
      ghost var all := Output(re, buf[..m] + input[at..]);
      more, m := Drain(re, buf, m, input[at..]);
      Append(out, more, Output(re, buf[..m] + input[at..]), all, Output(re, input));
      out := out + more;
      n := ReadCount(BUFSIZE - m - 1, |input| - at, Wish(wishes, t));
    }
    NoMore(re, buf[..m], input[at..]);
  }
}

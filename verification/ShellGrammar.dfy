// user/src/phase6/sh.c, lines 320-440: the grammar of the shell over token lists, and a printer
// for command trees. Words stay abstract here.
module ShellGrammar {

  const MAXARGS := 10

  // gettoken's results: a symbol character, ">>", or a word. The end of the input is the end of the list.
  datatype Token<W> = Sym(c: char) | Append | Word(w: W)

  datatype Mode = Input | Output | AppendTo
  datatype Redirection<W> = Redirection(mode: Mode, file: W)

  datatype Cmd<W> =
    | Exec(argv: seq<W>)
    | Redir(cmd: Cmd<W>, how: Redirection<W>)
    | Pipe(left: Cmd<W>, right: Cmd<W>)
    | List(left: Cmd<W>, right: Cmd<W>)
    | Back(cmd: Cmd<W>)

  datatype Panic = MissingFile | Syntax | MissingParen | TooManyArgs | Leftovers

  datatype Result<T, W> = Fail(why: Panic) | Ok(value: T, rest: seq<Token<W>>)

  predicate Is<W>(ts: seq<Token<W>>, c: char) { ts != [] && ts[0].Sym? && ts[0].c == c }

  predicate IsRedir<W>(ts: seq<Token<W>>) { Is(ts, '<') || Is(ts, '>') || (ts != [] && ts[0].Append?) }

  predicate EndsArgs<W>(ts: seq<Token<W>>) { Is(ts, '|') || Is(ts, ')') || Is(ts, '&') || Is(ts, ';') }

  // ---- the parser, on tokens ----

  function ModeOf<W>(t: Token<W>): Mode {
    if t.Sym? then (if t.c == '<' then Input else Output) else AppendTo
  }

  // parseredirs: the redirections in order.
  function Redirs<W>(ts: seq<Token<W>>): (r: Result<seq<Redirection<W>>, W>)
    ensures r.Ok? ==> |r.rest| <= |ts|
  {
    if !IsRedir(ts) then Ok([], ts)
    else if |ts| < 2 || !ts[1].Word? then Fail(MissingFile)
    else
      var r := Redirs(ts[2..]);
      if r.Fail? then r else Ok([Redirection(ModeOf(ts[0]), ts[1].w)] + r.value, r.rest)
  }

  function Wrap<W>(c: Cmd<W>, rs: seq<Redirection<W>>): Cmd<W>
    decreases |rs|
  {
    if rs == [] then c else Wrap(Redir(c, rs[0]), rs[1..])
  }

  // The loop of parseexec, from the argc-th argument on.
  function Args<W>(ts: seq<Token<W>>, argc: nat): (r: Result<(seq<W>, seq<Redirection<W>>), W>)
    ensures r.Ok? ==> |r.rest| <= |ts|
    decreases |ts|
  {
    if ts == [] || EndsArgs(ts) then Ok(([], []), ts)
    else if !ts[0].Word? then Fail(Syntax)
    else if argc + 1 >= MAXARGS then Fail(TooManyArgs)
    else
      var d := Redirs(ts[1..]);
      if d.Fail? then Fail(d.why)
      else
        var r := Args(d.rest, argc + 1);
        if r.Fail? then r else Ok(([ts[0].w] + r.value.0, d.value + r.value.1), r.rest)
  }

  function Simple<W>(ts: seq<Token<W>>): (r: Result<Cmd<W>, W>)
    ensures r.Ok? ==> |r.rest| <= |ts|
  {
    var d := Redirs(ts);
    if d.Fail? then Fail(d.why)
    else
      var r := Args(d.rest, 0);
      if r.Fail? then Fail(r.why) else Ok(Wrap(Exec(r.value.0), d.value + r.value.1), r.rest)
  }

  function Block<W>(ts: seq<Token<W>>): (r: Result<Cmd<W>, W>)
    requires Is(ts, '(')
    ensures r.Ok? ==> |r.rest| < |ts|
    decreases |ts|, 0
  {
    var r := Line(ts[1..]);
    if r.Fail? then r
    else if !Is(r.rest, ')') then Fail(MissingParen)
    else
      var d := Redirs(r.rest[1..]);
      if d.Fail? then Fail(d.why) else Ok(Wrap(r.value, d.value), d.rest)
  }

  function ExecPart<W>(ts: seq<Token<W>>): (r: Result<Cmd<W>, W>)
    ensures r.Ok? ==> |r.rest| <= |ts|
    decreases |ts|, 1
  {
    if Is(ts, '(') then Block(ts) else Simple(ts)
  }

  function PipePart<W>(ts: seq<Token<W>>): (r: Result<Cmd<W>, W>)
    ensures r.Ok? ==> |r.rest| <= |ts|
    decreases |ts|, 2
  {
    var l := ExecPart(ts);
    if l.Ok? && Is(l.rest, '|') then
      var r := PipePart(l.rest[1..]);
      if r.Fail? then r else Ok(Pipe(l.value, r.value), r.rest)
    else l
  }

  // Every ampersand that follows sends the command to the background once more.
  function Backs<W>(c: Cmd<W>, ts: seq<Token<W>>): (r: (Cmd<W>, seq<Token<W>>))
    ensures |r.1| <= |ts|
    decreases |ts|
  {
    if Is(ts, '&') then Backs(Back(c), ts[1..]) else (c, ts)
  }

  function Line<W>(ts: seq<Token<W>>): (r: Result<Cmd<W>, W>)
    ensures r.Ok? ==> |r.rest| <= |ts|
    decreases |ts|, 3
  {
    var l := PipePart(ts);
    if l.Fail? then l
    else
      var (c, rest) := Backs(l.value, l.rest);
      if Is(rest, ';') then
        var r := Line(rest[1..]);
        if r.Fail? then r else Ok(List(c, r.value), r.rest)
      else Ok(c, rest)
  }

  // parsecmd: the whole input is one line.
  function Command<W>(ts: seq<Token<W>>): Result<Cmd<W>, W> {
    var r := Line(ts);
    if r.Ok? && r.rest != [] then Fail(Leftovers) else r
  }

  // ---- what is left to do in the loops of parseredirs and parseexec ----

  // The whole list of redirections f is rs and what is still to come in ts.
  predicate RedirsFrom<W(==)>(f: Result<seq<Redirection<W>>, W>, rs: seq<Redirection<W>>, ts: seq<Token<W>>) {
    var g := Redirs(ts);
    if f.Fail? then g == f else g.Ok? && f.value == rs + g.value && f.rest == g.rest
  }

  lemma RedirsStart<W>(ts: seq<Token<W>>)
    ensures RedirsFrom(Redirs(ts), [], ts)
  {}

  lemma RedirsNext<W>(f: Result<seq<Redirection<W>>, W>, rs: seq<Redirection<W>>, ts: seq<Token<W>>)
    requires RedirsFrom(f, rs, ts) && IsRedir(ts)
    ensures if |ts| < 2 || !ts[1].Word? then f == Fail(MissingFile)
            else RedirsFrom(f, rs + [Redirection(ModeOf(ts[0]), ts[1].w)], ts[2..])
  {}

  lemma RedirsEnd<W>(f: Result<seq<Redirection<W>>, W>, rs: seq<Redirection<W>>, ts: seq<Token<W>>)
    requires RedirsFrom(f, rs, ts) && !IsRedir(ts)
    ensures f == Ok(rs, ts)
  {
    assert rs + [] == rs;
  }

  // The same for arguments with redirections between them.
  predicate ArgsFrom<W(==)>(f: Result<(seq<W>, seq<Redirection<W>>), W>, argv: seq<W>, rs: seq<Redirection<W>>,
      ts: seq<Token<W>>) {
    var g := Args(ts, |argv|);
    if f.Fail? then g == f
    else g.Ok? && f.value.0 == argv + g.value.0 && f.value.1 == rs + g.value.1 && f.rest == g.rest
  }

  lemma ArgsStart<W>(ts: seq<Token<W>>)
    ensures ArgsFrom(Args(ts, 0), [], [], ts)
  {
    var g := Args(ts, 0);
    if g.Ok? { assert [] + g.value.0 == g.value.0 && [] + g.value.1 == g.value.1; }
  }

  lemma ArgsNext<W>(f: Result<(seq<W>, seq<Redirection<W>>), W>, argv: seq<W>, rs: seq<Redirection<W>>,
      ts: seq<Token<W>>)
    requires ArgsFrom(f, argv, rs, ts) && ts != [] && !EndsArgs(ts)
    ensures !ts[0].Word? ==> f == Fail(Syntax)
    ensures ts[0].Word? && |argv| + 1 >= MAXARGS ==> f == Fail(TooManyArgs)
    ensures ts[0].Word? && |argv| + 1 < MAXARGS ==>
      var d := Redirs(ts[1..]);
      if d.Fail? then f == Fail(d.why) else ArgsFrom(f, argv + [ts[0].w], rs + d.value, d.rest)
  {
    if ts[0].Word? && |argv| + 1 < MAXARGS {
      hide Redirs;
      var d := Redirs(ts[1..]);
      if d.Ok? {
        var r := Args(d.rest, |argv| + 1);
        if r.Ok? {
          assert argv + ([ts[0].w] + r.value.0) == argv + [ts[0].w] + r.value.0;
          assert rs + (d.value + r.value.1) == rs + d.value + r.value.1;
        }
      }
    }
  }

  lemma ArgsEnd<W>(f: Result<(seq<W>, seq<Redirection<W>>), W>, argv: seq<W>, rs: seq<Redirection<W>>,
      ts: seq<Token<W>>)
    requires ArgsFrom(f, argv, rs, ts) && (ts == [] || EndsArgs(ts))
    ensures f == Ok((argv, rs), ts)
  {
    assert argv + [] == argv && rs + [] == rs;
  }

  // ---- the printer ----

  // Every command fits the argument vector.
  predicate Good<W>(c: Cmd<W>) {
    match c
    case Exec(argv) => |argv| < MAXARGS
    case Redir(d, _) => Good(d)
    case Pipe(l, r) => Good(l) && Good(r)
    case List(l, r) => Good(l) && Good(r)
    case Back(d) => Good(d)
  }

  function Nodes<W>(c: Cmd<W>): nat {
    match c
    case Exec(_) => 1
    case Redir(d, _) => 1 + Nodes(d)
    case Pipe(l, r) => 1 + Nodes(l) + Nodes(r)
    case List(l, r) => 1 + Nodes(l) + Nodes(r)
    case Back(d) => 1 + Nodes(d)
  }

  // What is below the redirections of a command, and below the &s.
  function Base<W>(c: Cmd<W>): (b: Cmd<W>)
    ensures Nodes(b) <= Nodes(c) && !b.Redir? && (Good(c) ==> Good(b)) && (c.Redir? ==> Nodes(b) < Nodes(c))
      && (!c.Redir? ==> b == c)
  {
    if c.Redir? then Base(c.cmd) else c
  }

  function Hows<W>(c: Cmd<W>): seq<Redirection<W>> {
    if c.Redir? then Hows(c.cmd) + [c.how] else []
  }

  function BackBase<W>(c: Cmd<W>): (b: Cmd<W>)
    ensures Nodes(b) <= Nodes(c) && !b.Back? && (Good(c) ==> Good(b)) && (c.Back? ==> Nodes(b) < Nodes(c))
      && (!c.Back? ==> b == c)
  {
    if c.Back? then BackBase(c.cmd) else c
  }

  function Amps<W>(c: Cmd<W>): seq<Token<W>> {
    if c.Back? then Amps(c.cmd) + [Sym('&')] else []
  }

  function RedirTokens<W>(rs: seq<Redirection<W>>): seq<Token<W>> {
    if rs == [] then []
    else
      var t := match rs[0].mode case Input => Sym('<') case Output => Sym('>') case AppendTo => Append;
      [t, Word(rs[0].file)] + RedirTokens(rs[1..])
  }

  function WordTokens<W>(ws: seq<W>): (r: seq<Token<W>>)
    ensures |r| == |ws| && forall k | 0 <= k < |ws| :: r[k] == Word(ws[k])
  {
    seq(|ws|, k requires 0 <= k < |ws| => Word(ws[k]))
  }

  // Which of the four levels prints c without parentheses comes last.
  function Rank<W>(level: nat, c: Cmd<W>): nat {
    match c
    case List(_, _) => if level == 3 then 0 else level + 1
    case Back(_) => if level == 2 then 0 else if level == 3 then 1 else level + 2
    case Pipe(_, _) => if level == 1 then 0 else if level == 0 then 3 else level - 1
    case _ => level
  }

  function PrintLine<W>(c: Cmd<W>): seq<Token<W>>
    decreases Nodes(c), Rank(3, c)
  {
    if c.List? then PrintBack(c.left) + [Sym(';')] + PrintLine(c.right) else PrintBack(c)
  }

  function PrintBack<W>(c: Cmd<W>): seq<Token<W>>
    decreases Nodes(c), Rank(2, c)
  {
    PrintPipe(BackBase(c)) + Amps(c)
  }

  function PrintPipe<W>(c: Cmd<W>): seq<Token<W>>
    decreases Nodes(c), Rank(1, c)
  {
    if c.Pipe? then PrintExec(c.left) + [Sym('|')] + PrintPipe(c.right) else PrintExec(c)
  }

  function PrintExec<W>(c: Cmd<W>): seq<Token<W>>
    decreases Nodes(c), Rank(0, c)
  {
    var b := Base(c);
    (if b.Exec? then WordTokens(b.argv) else [Sym('(')] + PrintLine(b) + [Sym(')')]) + RedirTokens(Hows(c))
  }

  // ---- the parser undoes the printer ----

  lemma {:induction false} RedirsTrip<W>(rs: seq<Redirection<W>>, rest: seq<Token<W>>)
    requires !IsRedir(rest)
    ensures Redirs(RedirTokens(rs) + rest) == Ok(rs, rest)
  {
    var ts := RedirTokens(rs) + rest;
    if rs == [] {
      assert ts == rest;
    } else {
      assert ts[2..] == RedirTokens(rs[1..]) + rest;
      RedirsTrip(rs[1..], rest);
      assert [Redirection(ModeOf(ts[0]), ts[1].w)] == [rs[0]];
      assert [rs[0]] + rs[1..] == rs;
    }
  }

  lemma {:induction false} ArgsTrip<W>(ws: seq<W>, rs: seq<Redirection<W>>, rest: seq<Token<W>>, argc: nat)
    requires argc + |ws| < MAXARGS && (rest == [] || EndsArgs(rest)) && (ws == [] ==> rs == [])
    ensures Args(WordTokens(ws) + RedirTokens(rs) + rest, argc) == Ok((ws, rs), rest)
  {
    var ts := WordTokens(ws) + RedirTokens(rs) + rest;
    if ws == [] {
      assert ts == rest;
    } else {
      assert ts[0] == Word(ws[0]);
      if |ws| == 1 {
        assert ts[1..] == RedirTokens(rs) + rest;
        RedirsTrip(rs, rest);
        assert Args(rest, argc + 1) == Ok(([], []), rest);
        assert [ws[0]] + [] == ws;
        assert rs + [] == rs;
      } else {
        var more := WordTokens(ws[1..]) + RedirTokens(rs) + rest;
        assert ts[1..] == more;
        assert more[0] == Word(ws[1]);
        assert Redirs(more) == Ok([], more);
        ArgsTrip(ws[1..], rs, rest, argc + 1);
        assert [ws[0]] + ws[1..] == ws;
        assert [] + rs == rs;
      }
    }
  }

  lemma {:induction false} WrapMore<W>(c: Cmd<W>, rs: seq<Redirection<W>>, how: Redirection<W>)
    ensures Wrap(c, rs + [how]) == Redir(Wrap(c, rs), how)
    decreases |rs|
  {
    if rs == [] {
      assert (rs + [how])[1..] == [];
    } else {
      assert (rs + [how])[0] == rs[0] && (rs + [how])[1..] == rs[1..] + [how];
      WrapMore(Redir(c, rs[0]), rs[1..], how);
    }
  }

  lemma {:induction false} WrapBase<W>(c: Cmd<W>)
    ensures Wrap(Base(c), Hows(c)) == c
  {
    if c.Redir? {
      WrapBase(c.cmd);
      WrapMore(Base(c), Hows(c.cmd), c.how);
    }
  }

  lemma SimpleTrip<W>(ws: seq<W>, rs: seq<Redirection<W>>, rest: seq<Token<W>>)
    requires |ws| < MAXARGS && (rest == [] || EndsArgs(rest))
    ensures Simple(WordTokens(ws) + RedirTokens(rs) + rest) == Ok(Wrap(Exec(ws), rs), rest)
  {
    var ts := WordTokens(ws) + RedirTokens(rs) + rest;
    if ws == [] {
      assert ts == RedirTokens(rs) + rest;
      RedirsTrip(rs, rest);
      assert rs + [] == rs;
    } else {
      assert ts[0] == Word(ws[0]);
      ArgsTrip(ws, rs, rest, 0);
      assert [] + rs == rs;
    }
  }

  lemma NoParen<W>(ws: seq<W>, rs: seq<Redirection<W>>, rest: seq<Token<W>>)
    requires rest == [] || EndsArgs(rest)
    ensures !Is(WordTokens(ws) + RedirTokens(rs) + rest, '(')
  {
    var ts := WordTokens(ws) + RedirTokens(rs) + rest;
    if ws != [] { assert ts[0] == Word(ws[0]); }
    else if rs != [] { assert ts[0] == RedirTokens(rs)[0]; }
    else { assert ts == rest; }
  }

  lemma {:induction false} ExecTrip<W>(c: Cmd<W>, rest: seq<Token<W>>)
    requires Good(c) && (rest == [] || EndsArgs(rest))
    ensures ExecPart(PrintExec(c) + rest) == Ok(c, rest)
    decreases Nodes(c), Rank(0, c)
  {
    hide PrintLine, RedirTokens, WordTokens, Simple, Redirs, Line, Wrap, Base, Hows, EndsArgs, Args, IsRedir;
    var b, rs := Base(c), Hows(c);
    WrapBase(c);
    if b.Exec? {
      SimpleTrip(b.argv, rs, rest);
      NoParen(b.argv, rs, rest);
      assert PrintExec(c) + rest == WordTokens(b.argv) + RedirTokens(rs) + rest;
    } else {
      EndsNoRedir(rest);
      var inner := [Sym(')')] + RedirTokens(rs) + rest;
      LineTrip(b, inner);
      RedirsTrip(rs, rest);
      var ts := PrintExec(c) + rest;
      assert ts[1..] == PrintLine(b) + inner;
      assert inner[1..] == RedirTokens(rs) + rest;
      assert ts[0] == Sym('(');
    }
  }

  lemma EndsNoRedir<W>(rest: seq<Token<W>>)
    requires rest == [] || EndsArgs(rest)
    ensures !IsRedir(rest)
  {}

  lemma GoodParts<W>(c: Cmd<W>)
    requires Good(c)
    ensures (c.Pipe? || c.List?) ==> Good(c.left) && Good(c.right)
  {}

  lemma {:induction false} PipeTrip<W>(c: Cmd<W>, rest: seq<Token<W>>)
    requires Good(c) && (rest == [] || (EndsArgs(rest) && !Is(rest, '|')))
    ensures PipePart(PrintPipe(c) + rest) == Ok(c, rest)
    decreases Nodes(c), Rank(1, c)
  {
    hide PrintExec, ExecPart, Good;
    GoodParts(c);
    if c.Pipe? {
      var more := [Sym('|')] + PrintPipe(c.right) + rest;
      ExecTrip(c.left, more);
      assert PrintPipe(c) + rest == PrintExec(c.left) + more;
      assert more[1..] == PrintPipe(c.right) + rest;
      PipeTrip(c.right, rest);
    } else {
      ExecTrip(c, rest);
    }
  }

  // The &s that were printed are taken off again.
  lemma {:induction false} BacksTrip<W>(c: Cmd<W>, rest: seq<Token<W>>)
    ensures Backs(BackBase(c), Amps(c) + rest) == Backs(c, rest)
  {
    if c.Back? {
      assert Amps(c) + rest == Amps(c.cmd) + ([Sym('&')] + rest);
      BacksTrip(c.cmd, [Sym('&')] + rest);
      assert ([Sym('&')] + rest)[1..] == rest;
    } else {
      assert Amps(c) + rest == rest;
    }
  }

  lemma {:induction false} AmpsStart<W>(c: Cmd<W>, rest: seq<Token<W>>)
    ensures Amps(c) + rest == rest || Is(Amps(c) + rest, '&')
  {
    if c.Back? {
      AmpsStart(c.cmd, [Sym('&')] + rest);
      assert Amps(c) + rest == Amps(c.cmd) + ([Sym('&')] + rest);
    }
  }

  lemma {:induction false} LineTrip<W>(c: Cmd<W>, rest: seq<Token<W>>)
    requires Good(c) && (rest == [] || Is(rest, ')'))
    ensures Line(PrintLine(c) + rest) == Ok(c, rest)
    decreases Nodes(c), Rank(3, c)
  {
    hide PipePart, Amps, BackBase;
    if c.List? {
      var more := [Sym(';')] + PrintLine(c.right) + rest;
      BackTrip(c.left, more);
      assert PrintLine(c) + rest == PrintBack(c.left) + more;
      assert more[1..] == PrintLine(c.right) + rest;
      LineTrip(c.right, rest);
    } else {
      BackTrip(c, rest);
    }
  }

  lemma {:induction false} BackTrip<W>(c: Cmd<W>, rest: seq<Token<W>>)
    requires Good(c) && (rest == [] || Is(rest, ')') || Is(rest, ';'))
    ensures var l := PipePart(PrintBack(c) + rest); l.Ok? && Backs(l.value, l.rest) == (c, rest)
    decreases Nodes(c), Rank(2, c)
  {
    var more := Amps(c) + rest;
    AmpsStart(c, rest);
    assert PrintBack(c) + rest == PrintPipe(BackBase(c)) + more;
    PipeTrip(BackBase(c), more);
    BacksTrip(c, rest);
  }

  // For every tree whose commands have at most 9 arguments.
  lemma PrintedParses<W>(c: Cmd<W>)
    requires Good(c)
    ensures Command(PrintLine(c)) == Ok(c, [])
  {
    LineTrip(c, []);
    assert PrintLine(c) + [] == PrintLine(c);
  }

  // ---- words can be anything: the parser commutes with replacing them ----

  function MapT<W, V>(ts: seq<Token<W>>, f: W -> V): (r: seq<Token<V>>)
    ensures |r| == |ts|
    ensures forall k | 0 <= k < |ts| :: r[k] == MapToken(ts[k], f)
  {
    seq(|ts|, k requires 0 <= k < |ts| => MapToken(ts[k], f))
  }

  function MapToken<W, V>(t: Token<W>, f: W -> V): Token<V> {
    match t
    case Sym(c) => Sym(c)
    case Append => Append
    case Word(w) => Word(f(w))
  }

  function MapW<W, V>(ws: seq<W>, f: W -> V): (r: seq<V>)
    ensures |r| == |ws|
    ensures forall k | 0 <= k < |ws| :: r[k] == f(ws[k])
  {
    seq(|ws|, k requires 0 <= k < |ws| => f(ws[k]))
  }

  function MapR<W, V>(rs: seq<Redirection<W>>, f: W -> V): (r: seq<Redirection<V>>)
    ensures |r| == |rs|
    ensures forall k | 0 <= k < |rs| :: r[k] == Redirection(rs[k].mode, f(rs[k].file))
  {
    seq(|rs|, k requires 0 <= k < |rs| => Redirection(rs[k].mode, f(rs[k].file)))
  }

  function MapC<W, V>(c: Cmd<W>, f: W -> V): Cmd<V> {
    match c
    case Exec(argv) => Exec(MapW(argv, f))
    case Redir(d, how) => Redir(MapC(d, f), Redirection(how.mode, f(how.file)))
    case Pipe(l, r) => Pipe(MapC(l, f), MapC(r, f))
    case List(l, r) => List(MapC(l, f), MapC(r, f))
    case Back(d) => Back(MapC(d, f))
  }

  lemma MapRest<W, V>(ts: seq<Token<W>>, f: W -> V, k: nat)
    requires k <= |ts|
    ensures MapT(ts[k..], f) == MapT(ts, f)[k..]
  {}

  lemma {:induction false} RedirsMap<W, V>(ts: seq<Token<W>>, f: W -> V)
    ensures var a, b := Redirs(ts), Redirs(MapT(ts, f));
      if a.Fail? then b == Fail(a.why) else b == Ok(MapR(a.value, f), MapT(a.rest, f))
  {
    hide MapT;
    var us := MapT(ts, f);
    if IsRedir(ts) && |ts| >= 2 && ts[1].Word? {
      RedirsMap(ts[2..], f);
      MapRest(ts, f, 2);
      var a := Redirs(ts[2..]);
      if a.Ok? { assert MapR(Redirs(ts).value, f) == [Redirection(ModeOf(us[0]), us[1].w)] + MapR(a.value, f); }
    }
  }

  lemma {:induction false} ArgsMap<W, V>(ts: seq<Token<W>>, f: W -> V, argc: nat)
    ensures var a, b := Args(ts, argc), Args(MapT(ts, f), argc);
      if a.Fail? then b == Fail(a.why) else b == Ok((MapW(a.value.0, f), MapR(a.value.1, f)), MapT(a.rest, f))
    decreases |ts|
  {
    hide MapT, Redirs;
    var us := MapT(ts, f);
    if ts != [] && !EndsArgs(ts) && ts[0].Word? && argc + 1 < MAXARGS {
      MapRest(ts, f, 1);
      RedirsMap(ts[1..], f);
      var d := Redirs(ts[1..]);
      if d.Ok? {
        ArgsMap(d.rest, f, argc + 1);
        var r := Args(d.rest, argc + 1);
        if r.Ok? {
          assert MapW([ts[0].w] + r.value.0, f) == [us[0].w] + MapW(r.value.0, f);
          assert MapR(d.value + r.value.1, f) == MapR(d.value, f) + MapR(r.value.1, f);
        }
      }
    }
  }

  lemma {:induction false} WrapMap<W, V>(c: Cmd<W>, rs: seq<Redirection<W>>, f: W -> V)
    ensures MapC(Wrap(c, rs), f) == Wrap(MapC(c, f), MapR(rs, f))
    decreases |rs|
  {
    if rs != [] {
      WrapMap(Redir(c, rs[0]), rs[1..], f);
      assert MapR(rs, f)[1..] == MapR(rs[1..], f);
    }
  }

  ghost predicate Mapped<W, V>(a: Result<Cmd<W>, W>, b: Result<Cmd<V>, V>, f: W -> V) {
    if a.Fail? then b == Fail(a.why) else b == Ok(MapC(a.value, f), MapT(a.rest, f))
  }

  lemma SimpleMap<W, V>(ts: seq<Token<W>>, f: W -> V)
    ensures Mapped(Simple(ts), Simple(MapT(ts, f)), f)
  {
    hide MapT, Redirs, Args, Wrap;
    RedirsMap(ts, f);
    var d := Redirs(ts);
    if d.Ok? {
      ArgsMap(d.rest, f, 0);
      var r := Args(d.rest, 0);
      if r.Ok? {
        WrapMap(Exec(r.value.0), d.value + r.value.1, f);
        assert MapR(d.value + r.value.1, f) == MapR(d.value, f) + MapR(r.value.1, f);
      }
    }
  }

  lemma {:induction false} BlockMap<W, V>(ts: seq<Token<W>>, f: W -> V)
    requires Is(ts, '(')
    ensures Mapped(Block(ts), Block(MapT(ts, f)), f)
    decreases |ts|, 0
  {
    hide MapT;
    MapRest(ts, f, 1);
    LineMap(ts[1..], f);
    var r := Line(ts[1..]);
    if r.Ok? && Is(r.rest, ')') {
      MapRest(r.rest, f, 1);
      RedirsMap(r.rest[1..], f);
      var d := Redirs(r.rest[1..]);
      if d.Ok? { WrapMap(r.value, d.value, f); }
    }
  }

  lemma {:induction false} ExecMap<W, V>(ts: seq<Token<W>>, f: W -> V)
    ensures Mapped(ExecPart(ts), ExecPart(MapT(ts, f)), f)
    decreases |ts|, 1
  {
    hide MapT;
    if Is(ts, '(') { BlockMap(ts, f); } else { SimpleMap(ts, f); }
  }

  lemma {:induction false} PipeMap<W, V>(ts: seq<Token<W>>, f: W -> V)
    ensures Mapped(PipePart(ts), PipePart(MapT(ts, f)), f)
    decreases |ts|, 2
  {
    hide MapT, ExecPart;
    ExecMap(ts, f);
    var l := ExecPart(ts);
    if l.Ok? && Is(l.rest, '|') {
      MapRest(l.rest, f, 1);
      PipeMap(l.rest[1..], f);
    }
  }

  lemma {:induction false} BacksMap<W, V>(c: Cmd<W>, ts: seq<Token<W>>, f: W -> V)
    ensures Backs(MapC(c, f), MapT(ts, f)) == (MapC(Backs(c, ts).0, f), MapT(Backs(c, ts).1, f))
    decreases |ts|
  {
    hide MapT;
    if Is(ts, '&') {
      MapRest(ts, f, 1);
      BacksMap(Back(c), ts[1..], f);
    }
  }

  lemma {:induction false} LineMap<W, V>(ts: seq<Token<W>>, f: W -> V)
    ensures Mapped(Line(ts), Line(MapT(ts, f)), f)
    decreases |ts|, 3
  {
    hide MapT, PipePart, Backs;
    PipeMap(ts, f);
    var l := PipePart(ts);
    if l.Ok? {
      BacksMap(l.value, l.rest, f);
      var (c, rest) := Backs(l.value, l.rest);
      if Is(rest, ';') {
        MapRest(rest, f, 1);
        LineMap(rest[1..], f);
      }
    }
  }

  lemma CommandMap<W, V>(ts: seq<Token<W>>, f: W -> V)
    ensures Mapped(Command(ts), Command(MapT(ts, f)), f)
  {
    LineMap(ts, f);
  }
}

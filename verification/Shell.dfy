// user/src/phase6/sh.c, lines 258-487: the parser as it runs, a cursor moving over the line and NULs
// written into it at the end.
module Shell {
  import opened Options
  import opened ShellGrammar
  import opened ShellTokens

  datatype Parsed<T> = Bad(why: Panic) | Good(value: T)

  class Parser {
    const buf: array<char>
    const es: nat
    var ps: nat

    // A line in memory, with its NUL.
    constructor (buf: array<char>, es: nat)
      requires es < buf.Length && buf[es] == NUL && forall i | 0 <= i < es :: buf[i] != NUL
      ensures Valid() && this.buf == buf && this.es == es && ps == 0
    {
      this.buf, this.es, this.ps := buf, es, 0;
    }

    ghost predicate Valid()
      reads this, buf
    {
      ps <= es < buf.Length && buf[es] == NUL && forall i | 0 <= i < es :: buf[i] != NUL
    }

    ghost function Text(): string
      requires Valid()
      reads this, buf
    {
      buf[..es]
    }

    // The tokens the cursor has not passed yet.
    ghost function Left(): seq<Token<Span>>
      requires Valid()
      reads this, buf
    {
      Tokens(Text(), ps)
    }

    method SkipSpace(s: nat) returns (r: nat)
      requires Valid() && s <= es
      ensures r == Skip(Text(), s)
    {
      r := s;
      while r < es && Space(buf[r])
        invariant s <= r <= es && Skip(Text(), s) == Skip(Text(), r)
      {
        r := r + 1;
      }
    }

    // gettoken: None at the end of the line.
    method Gettoken() returns (ret: Option<Token<Span>>)
      requires Valid()
      modifies this
      ensures Valid()
      ensures ret == if old(Left()) == [] then None else Some(old(Left())[0])
      ensures Left() == if old(Left()) == [] then [] else old(Left())[1..]
    {
      hide Tokens, WordEnd, Skip;
      ghost var text := Text();
      NextToken(text, ps);
      var s := SkipSpace(ps);
      var q := s;
      match buf[s] {
        case '\0' => ret := None;
        case '|' => s := s + 1; ret := Some(Sym('|'));
        case '(' => s := s + 1; ret := Some(Sym('('));
        case ')' => s := s + 1; ret := Some(Sym(')'));
        case ';' => s := s + 1; ret := Some(Sym(';'));
        case '&' => s := s + 1; ret := Some(Sym('&'));
        case '<' => s := s + 1; ret := Some(Sym('<'));
        case '>' =>
          s := s + 1;
          ret := Some(Sym('>'));
          if buf[s] == '>' {
            ret := Some(Append);
            s := s + 1;
          }
        case _ =>
          s := FindEnd(s);
          ret := Some(Word(Span(q, s)));
      }
      SkipTokens(text, s);
      NextToken(text, s);
      ps := SkipSpace(s);
    }

    // The rest of a word.
    method FindEnd(s: nat) returns (r: nat)
      requires Valid() && s <= es
      ensures r == WordEnd(Text(), s)
    {
      r := s;
      while r < es && !Space(buf[r]) && !Symbol(buf[r])
        invariant s <= r <= es && WordEnd(Text(), s) == WordEnd(Text(), r)
      {
        r := r + 1;
      }
    }

    // peek for one of the given symbols
    method Peek(toks: string) returns (b: bool)
      requires Valid() && forall j | 0 <= j < |toks| :: Symbol(toks[j])
      modifies this
      ensures Valid() && Left() == old(Left()) && b == Heads(Left(), toks)
      ensures Left() == [] <==> ps == es
    {
      SkipTokens(Text(), ps);
      ps := SkipSpace(ps);
      b := buf[ps] != NUL && buf[ps] in toks;
    }

    method ParseRedirs() returns (r: Parsed<seq<Redirection<Span>>>)
      requires Valid()
      modifies this
      ensures Valid()
      ensures var f := Redirs(old(Left())); if f.Fail? then r == Bad(f.why) else r == Good(f.value) && Left() == f.rest
    {
      hide Redirs, RedirsFrom, Tokens;
      var rs := [];
      ghost var f := Redirs(Left());
      RedirsStart(Left());
      var more := Peek("<>");
      while more
        invariant Valid() && more == IsRedir(Left()) && RedirsFrom(f, rs, Left())
        decreases |Left()|
      {
        RedirsNext(f, rs, Left());
        var tok := Gettoken();
        var file := Gettoken();
        if file.None? || !file.value.Word? { return Bad(MissingFile); }
        rs := rs + [Redirection(ModeOf(tok.value), file.value.w)];
        more := Peek("<>");
      }
      RedirsEnd(f, rs, Left());
      return Good(rs);
    }

    method ParseBlock() returns (r: Parsed<Cmd<Span>>)
      requires Valid() && Is(Left(), '(')
      modifies this
      ensures Valid() && Does(Block(old(Left())), r, Left())
      decreases |Left()|, 0
    {
      hide Line, Redirs, Wrap, Tokens;
      var open := Gettoken();
      r := ParseLine();
      if r.Bad? { return; }
      var close := Peek(")");
      if !close { return Bad(MissingParen); }
      var paren := Gettoken();
      var rs := ParseRedirs();
      if rs.Bad? { return Bad(rs.why); }
      return Good(Wrap(r.value, rs.value));
    }

    // parseexec without a block. The argument vector is filled in while redirections are already
    // wrapped round the command; here both are collected and put together at the end.
    method ParseSimple() returns (r: Parsed<Cmd<Span>>)
      requires Valid() && !Is(Left(), '(')
      modifies this
      ensures Valid() && Does(Simple(old(Left())), r, Left())
    {
      hide Redirs, Args, ArgsFrom, Tokens, Wrap;
      var rs := ParseRedirs();
      if rs.Bad? { return Bad(rs.why); }
      var argv, argc, more := [], 0, [];
      ghost var f := Args(Left(), 0);
      ArgsStart(Left());
      var stop := Peek("|)&;");
      while !stop
        invariant Valid() && argc == |argv| < MAXARGS && stop == EndsArgs(Left()) && ArgsFrom(f, argv, more, Left())
        decreases !stop, |Left()|
      {
        if Left() != [] { ArgsNext(f, argv, more, Left()); }
        var tok := Gettoken();
        if tok.None? { break; }
        if !tok.value.Word? { return Bad(Syntax); }
        argv := argv + [tok.value.w];
        argc := argc + 1;
        if argc >= MAXARGS { return Bad(TooManyArgs); }
        var d := ParseRedirs();
        if d.Bad? { return Bad(d.why); }
        more := more + d.value;
        stop := Peek("|)&;");
      }
      ArgsEnd(f, argv, more, Left());
      return Good(Wrap(Exec(argv), rs.value + more));
    }

    method ParseExec() returns (r: Parsed<Cmd<Span>>)
      requires Valid()
      modifies this
      ensures Valid() && Does(ExecPart(old(Left())), r, Left())
      decreases |Left()|, 1
    {
      var block := Peek("(");
      if block {
        r := ParseBlock();
      } else {
        r := ParseSimple();
      }
    }

    method ParsePipe() returns (r: Parsed<Cmd<Span>>)
      requires Valid()
      modifies this
      ensures Valid() && Does(PipePart(old(Left())), r, Left())
      decreases |Left()|, 2
    {
      hide ExecPart, Tokens;
      r := ParseExec();
      if r.Bad? { return; }
      var bar := Peek("|");
      if bar {
        var tok := Gettoken();
        var right := ParsePipe();
        if right.Bad? { return right; }
        r := Good(Pipe(r.value, right.value));
      }
    }

    method ParseLine() returns (r: Parsed<Cmd<Span>>)
      requires Valid()
      modifies this
      ensures Valid() && Does(Line(old(Left())), r, Left())
      decreases |Left()|, 3
    {
      hide PipePart, Tokens;
      r := ParsePipe();
      if r.Bad? { return; }
      var cmd := r.value;
      ghost var f := Backs(cmd, Left());
      var more := Peek("&");
      while more
        invariant Valid() && more == Is(Left(), '&') && Backs(cmd, Left()) == f && |Left()| <= |old(Left())|
        decreases |Left()|
      {
        var tok := Gettoken();
        cmd := Back(cmd);
        more := Peek("&");
      }
      var semi := Peek(";");
      if semi {
        var tok := Gettoken();
        var right := ParseLine();
        if right.Bad? { return right; }
        cmd := List(cmd, right.value);
      }
      return Good(cmd);
    }

    // A NUL behind every word of the command.
    method NulTerminate(cmd: Cmd<Span>)
      requires forall w | w in Spans(cmd) :: w.eq <= es < buf.Length
      modifies buf
      ensures forall w | w in Spans(cmd) :: buf[w.eq] == NUL
      ensures forall i | 0 <= i < buf.Length ::
        buf[i] == old(buf[i]) || (buf[i] == NUL && exists w :: w in Spans(cmd) && w.eq == i)
      decreases cmd
    {
      match cmd
      case Exec(argv) =>
        for i := 0 to |argv|
          invariant forall k | 0 <= k < i :: buf[argv[k].eq] == NUL
          invariant forall j | 0 <= j < buf.Length ::
            buf[j] == old(buf[j]) || (buf[j] == NUL && exists w :: w in Spans(cmd) && w.eq == j)
        {
          assert argv[i] in Spans(cmd);
          buf[argv[i].eq] := NUL;
        }
      case Redir(d, how) =>
        NulTerminate(d);
        buf[how.file.eq] := NUL;
      case Pipe(l, r) =>
        NulTerminate(l);
        NulTerminate(r);
      case List(l, r) =>
        NulTerminate(l);
        NulTerminate(r);
      case Back(d) =>
        NulTerminate(d);
    }

    // parsecmd: panics exactly when the tokens are not a command; otherwise every word of the result
    // is a NUL-terminated string in the buffer, the word it was in the line.
    method ParseCmd() returns (r: Parsed<Cmd<Span>>)
      requires Valid() && ps == 0
      modifies this, buf
      ensures var f := Command(Tokens(old(Text()), 0)); if f.Fail? then r == Bad(f.why) else r == Good(f.value)
      ensures r.Good? ==> forall w | w in Spans(r.value) :: w.q < w.eq && StringAt(buf[..], w.q, TextOf(old(Text()), w))
    {
      ghost var text := Text();
      r := ParseLine();
      if r.Bad? { return; }
      var none := Peek("");
      if ps != es { return Bad(Leftovers); }
      SpansAreWords(Tokens(text, 0));
      forall w | w in Spans(r.value) ensures w.q < w.eq <= es { WordPlace(text, 0, w); }
      NulTerminate(r.value);
      forall w | w in Spans(r.value) ensures w.q < w.eq && StringAt(buf[..], w.q, TextOf(text, w)) {
        forall v | v in Spans(r.value) ensures !(w.q <= v.eq < w.eq) { WordsApart(text, v, w); }
      }
    }
  }

  // b has the C string t at address p.
  predicate StringAt(b: string, p: nat, t: string) {
    p + |t| < |b| && b[p..p + |t|] == t && b[p + |t|] == NUL && NUL !in t
  }

  predicate Heads(ts: seq<Token<Span>>, toks: string) {
    ts != [] && match ts[0] case Sym(c) => c in toks case Append => '>' in toks case Word(_) => false
  }

  // A method did what the function of the grammar says.
  ghost predicate Does(f: Result<Cmd<Span>, Span>, r: Parsed<Cmd<Span>>, left: seq<Token<Span>>) {
    if f.Fail? then r == Bad(f.why) else r == Good(f.value) && left == f.rest
  }
}

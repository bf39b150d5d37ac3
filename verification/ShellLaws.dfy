// What the characters of a command line mean to the shell, one by one: laws about gettoken and parsecmd
// of user/src/phase6/sh.c that name the characters themselves.
module ShellLaws {
  import opened ShellGrammar
  import opened ShellTokens

  // ---- characters and tokens ----

  predicate White(c: char) { c == ' ' || c == '\t' || c == '\r' || c == '\n' || c as int == 11 }

  predicate Mark(c: char) { c in "<|>&;()" }

  // White space in front of a token does not count.
  lemma WhiteToken(text: string, s: nat)
    requires s < |text| && White(text[s])
    ensures Tokens(text, s) == Tokens(text, s + 1)
  {
    assert Skip(text, s) == Skip(text, s + 1);
  }

  // A mark is a token by itself, wherever it stands.
  lemma MarkToken(text: string, s: nat)
    requires s < |text| && Mark(text[s]) && !(text[s] == '>' && s + 1 < |text| && text[s + 1] == '>')
    ensures Tokens(text, s) == [Sym(text[s])] + Tokens(text, s + 1)
  {
    assert Skip(text, s) == s;
  }

  lemma AppendToken(text: string, s: nat)
    requires s + 1 < |text| && text[s] == text[s + 1] == '>'
    ensures Tokens(text, s) == [Append] + Tokens(text, s + 2)
  {
    assert Skip(text, s) == s;
  }

  lemma {:induction false} WordStops(text: string, s: nat, e: nat)
    requires s <= e <= |text| && forall j | s <= j < e :: !White(text[j]) && !Mark(text[j])
    requires e < |text| ==> White(text[e]) || Mark(text[e])
    ensures WordEnd(text, s) == e
    decreases e - s
  {
    if s < e { WordStops(text, s + 1, e); }
  }

  // Everything up to the next white space or mark is one word.
  lemma WordToken(text: string, s: nat, e: nat)
    requires s < e <= |text| && forall j | s <= j < e :: !White(text[j]) && !Mark(text[j])
    requires e < |text| ==> White(text[e]) || Mark(text[e])
    ensures Tokens(text, s) == [Word(Span(s, e))] + Tokens(text, e)
  {
    assert Skip(text, s) == s;
    WordStops(text, s, e);
  }

  // Text that differs only in the kind of its white space.
  predicate Alike(text: string, text': string) {
    |text| == |text'| && forall j | 0 <= j < |text| :: text'[j] == text[j] || (White(text[j]) && White(text'[j]))
  }

  lemma {:induction false} SkipsAlike(text: string, text': string, s: nat)
    requires Alike(text, text') && s <= |text|
    ensures Skip(text, s) == Skip(text', s)
    decreases |text| - s
  {
    if s < |text| { SkipsAlike(text, text', s + 1); }
  }

  lemma {:induction false} EndsAlike(text: string, text': string, s: nat)
    requires Alike(text, text') && s <= |text|
    ensures WordEnd(text, s) == WordEnd(text', s)
    decreases |text| - s
  {
    if s < |text| { EndsAlike(text, text', s + 1); }
  }

  // Tab, carriage return, newline and vertical tab separate words as a blank does.
  lemma {:induction false} WhiteIsWhite(text: string, text': string, s: nat)
    requires Alike(text, text') && s <= |text|
    ensures Tokens(text, s) == Tokens(text', s)
    decreases |text| - s
  {
    SkipsAlike(text, text', s);
    var k := Skip(text, s);
    if k < |text| {
      EndsAlike(text, text', k);
      assert text'[k] == text[k] && (k + 1 < |text| ==> (text'[k + 1] == '>' <==> text[k + 1] == '>'));
      WhiteIsWhite(text, text', TokenAt(text, k).1);
    }
  }

  // ---- tokens and commands ----

  function Ws<W>(ws: seq<W>): (ts: seq<Token<W>>)
    ensures |ts| == |ws|
  {
    seq(|ws|, k requires 0 <= k < |ws| => Word(ws[k]))
  }

  // What may follow the words of a command.
  predicate Over<W(==)>(ts: seq<Token<W>>) {
    ts == [] || ts[0] == Sym('|') || ts[0] == Sym(';') || ts[0] == Sym('&') || ts[0] == Sym(')')
  }

  lemma NoRedirs<W>(ts: seq<Token<W>>)
    requires !IsRedir(ts)
    ensures Redirs(ts) == Ok([], ts)
  {}

  lemma {:induction false} WordsFrom<W>(f: Result<(seq<W>, seq<Redirection<W>>), W>, argv: seq<W>, ws: seq<W>,
      ts: seq<Token<W>>)
    requires ArgsFrom(f, argv, [], Ws(ws) + ts) && Over(ts)
    ensures f == if ws == [] || |argv| + |ws| <= 9 then Ok((argv + ws, []), ts) else Fail(TooManyArgs)
    decreases |ws|
  {
    hide Args, Redirs, ArgsFrom;
    var all := Ws(ws) + ts;
    if ws == [] {
      assert all == ts && argv + ws == argv;
      ArgsEnd(f, argv, [], ts);
    } else {
      assert all[0] == Word(ws[0]) && all[1..] == Ws(ws[1..]) + ts;
      ArgsNext(f, argv, [], all);
      if |argv| + 1 < MAXARGS {
        assert !IsRedir(all[1..]) by {
          if |ws| > 1 { assert all[1] == Word(ws[1]); } else { assert all[1..] == ts; }
        }
        NoRedirs(all[1..]);
        var none: seq<Redirection<W>> := [];
        assert none + none == none && argv + [ws[0]] + ws[1..] == argv + ws;
        WordsFrom(f, argv + [ws[0]], ws[1..], ts);
      }
    }
  }

  // Up to nine words are a command with its arguments; ten are too many.
  lemma WordsOnly<W>(ws: seq<W>, ts: seq<Token<W>>)
    requires Over(ts)
    ensures ExecPart(Ws(ws) + ts) == if |ws| <= 9 then Ok(Exec(ws), ts) else Fail(TooManyArgs)
  {
    var all := Ws(ws) + ts;
    assert ws != [] ==> all[0] == Word(ws[0]);
    assert ws == [] ==> all == ts;
    hide Args, ArgsFrom;
    assert !IsRedir(all);
    NoRedirs(all);
    ArgsStart(all);
    WordsFrom(Args(all, 0), [], ws, ts);
    var none: seq<Redirection<W>> := [];
    assert none + none == none && [] + ws == ws;
  }

  lemma WordsAlone<W>(ws: seq<W>, ts: seq<Token<W>>)
    requires |ws| <= 9 && Over(ts) && (ts != [] ==> ts[0] != Sym('|'))
    ensures PipePart(Ws(ws) + ts) == Ok(Exec(ws), ts)
  {
    WordsOnly(ws, ts);
  }

  lemma LineOfWords<W>(ws: seq<W>, ts: seq<Token<W>>)
    requires |ws| <= 9 && (ts == [] || ts[0] == Sym(')'))
    ensures Line(Ws(ws) + ts) == Ok(Exec(ws), ts)
  {
    WordsAlone(ws, ts);
  }

  // a | b connects, a ; b runs one after the other, a & goes to the background, ( a ) is a.
  lemma Marks<W>(a: seq<W>, b: seq<W>)
    requires |a| <= 9 && |b| <= 9
    ensures Command(Ws(a)) == Ok(Exec(a), [])
    ensures Command(Ws(a) + ([Sym('|')] + Ws(b))) == Ok(Pipe(Exec(a), Exec(b)), [])
    ensures Command(Ws(a) + ([Sym(';')] + Ws(b))) == Ok(List(Exec(a), Exec(b)), [])
    ensures Command(Ws(a) + [Sym('&')]) == Ok(Back(Exec(a)), [])
    ensures Command([Sym('(')] + (Ws(a) + [Sym(')')])) == Ok(Exec(a), [])
  {
    hide Args, Redirs, ExecPart;
    assert Ws(a) + [] == Ws(a) && Ws(b) + [] == Ws(b);
    LineOfWords(a, []);
    Piped(a, b);
    Listed(a, b);
    InBackground(a);
    InParens(a);
  }

  lemma Piped<W>(a: seq<W>, b: seq<W>)
    requires |a| <= 9 && |b| <= 9
    ensures Line(Ws(a) + ([Sym('|')] + Ws(b))) == Ok(Pipe(Exec(a), Exec(b)), [])
  {
    hide Args, Redirs, ExecPart;
    var ts := [Sym('|')] + Ws(b);
    WordsOnly(a, ts);
    assert ts[1..] == Ws(b) && Ws(b) + [] == Ws(b);
    WordsAlone(b, []);
    assert PipePart(Ws(a) + ts) == Ok(Pipe(Exec(a), Exec(b)), []);
  }

  lemma Listed<W>(a: seq<W>, b: seq<W>)
    requires |a| <= 9 && |b| <= 9
    ensures Line(Ws(a) + ([Sym(';')] + Ws(b))) == Ok(List(Exec(a), Exec(b)), [])
  {
    hide Args, Redirs, ExecPart, PipePart;
    var ts := [Sym(';')] + Ws(b);
    WordsAlone(a, ts);
    assert ts[1..] == Ws(b) && Ws(b) + [] == Ws(b);
    LineOfWords(b, []);
  }

  lemma InBackground<W>(a: seq<W>)
    requires |a| <= 9
    ensures Line(Ws(a) + [Sym('&')]) == Ok(Back(Exec(a)), [])
  {
    hide Args, Redirs, ExecPart, PipePart;
    var ts: seq<Token<W>> := [Sym('&')];
    WordsAlone(a, ts);
    assert ts[1..] == [];
    assert Backs(Exec(a), ts) == Backs(Back(Exec(a)), []);
  }

  lemma InParens<W>(a: seq<W>)
    requires |a| <= 9
    ensures Line([Sym('(')] + (Ws(a) + [Sym(')')])) == Ok(Exec(a), [])
  {
    hide Args;
    var inner := Ws(a) + [Sym(')')];
    var ts := [Sym('(')] + inner;
    assert ts[1..] == inner;
    LineOfWords(a, [Sym(')')]);
    assert Block(ts) == Ok(Exec(a), []);
    assert ExecPart(ts) == Ok(Exec(a), []);
    assert PipePart(ts) == Ok(Exec(a), []);
  }

  // < is input, > output from the start, >> output behind what is there; without a word behind it none parses.
  lemma Arrows<W>(a: W, file: W)
    ensures Command([Word(a), Sym('<'), Word(file)]) == Ok(Redir(Exec([a]), Redirection(Input, file)), [])
    ensures Command([Word(a), Sym('>'), Word(file)]) == Ok(Redir(Exec([a]), Redirection(Output, file)), [])
    ensures Command([Word(a), Append, Word(file)]) == Ok(Redir(Exec([a]), Redirection(AppendTo, file)), [])
    ensures Command([Word(a), Sym('<')]).Fail? && Command([Word(a), Sym('>')]).Fail? && Command([Word(a), Append]).Fail?
  {
    Arrow(a, Sym('<'), file);
    Arrow(a, Sym('>'), file);
    Arrow(a, Append, file);
  }

  lemma Arrow<W>(a: W, t: Token<W>, file: W)
    requires t == Sym('<') || t == Sym('>') || t == Append
    ensures Command([Word(a), t, Word(file)])
      == Ok(Redir(Exec([a]), Redirection(if t == Sym('<') then Input else if t == Append then AppendTo else Output,
        file)), [])
    ensures Command([Word(a), t]) == Fail(MissingFile)
  {
    var how := Redirection(if t == Sym('<') then Input else if t == Append then AppendTo else Output, file);
    ArrowRedirs(t, how);
    var ts, none: seq<Redirection<W>> := [Word(a), t, Word(file)], [];
    var ws: seq<W> := [];
    assert ts[1..] == [t, Word(file)] && none + [how] == [how] && [how] + none == [how] && [a] + ws == [a];
    assert Args(ts, 0) == Ok(([a], [how]), []);
    assert none + [how] == [how] && [how][1..] == none;
    assert Wrap(Exec([a]), [how]) == Wrap(Redir(Exec([a]), how), none);
    assert Simple(ts) == Ok(Redir(Exec([a]), how), []);
    assert PipePart(ts) == Simple(ts);
    var short := [Word(a), t];
    assert short[1..] == [t];
    assert Redirs(short[1..]) == Fail(MissingFile);
    assert Simple(short) == Fail(MissingFile);
    assert PipePart(short) == Simple(short);
  }

  lemma ArrowRedirs<W>(t: Token<W>, how: Redirection<W>)
    requires (t == Sym('<') && how.mode == Input) || (t == Sym('>') && how.mode == Output)
      || (t == Append && how.mode == AppendTo)
    ensures Redirs([t, Word(how.file)]) == Ok([how], [])
  {
    var ts, none: seq<Redirection<W>> := [t, Word(how.file)], [];
    assert ts[2..] == [] && [how] + none == [how];
    assert Redirs(ts[2..]) == Ok(none, []);
  }
}

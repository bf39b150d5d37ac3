// user/src/phase6/sh.c, lines 255-336: the characters of a command line as tokens.
module ShellTokens {
  import opened ShellGrammar

  const NUL := '\0'

  predicate Space(c: char) { c == ' ' || c == '\t' || c == '\r' || c == '\n' || c == (11 as char) }
  predicate Symbol(c: char) { c == '<' || c == '|' || c == '>' || c == '&' || c == ';' || c == '(' || c == ')' }

  // A word in the buffer: from q up to eq.
  datatype Span = Span(q: nat, eq: nat)

  function Skip(text: string, s: nat): (r: nat)
    requires s <= |text|
    ensures s <= r <= |text| && (r < |text| ==> !Space(text[r])) && forall j | s <= j < r :: Space(text[j])
    decreases |text| - s
  {
    if s < |text| && Space(text[s]) then Skip(text, s + 1) else s
  }

  function WordEnd(text: string, s: nat): (r: nat)
    requires s <= |text|
    ensures s <= r <= |text| && (r < |text| ==> Space(text[r]) || Symbol(text[r]))
    ensures forall j | s <= j < r :: !Space(text[j]) && !Symbol(text[j])
    decreases |text| - s
  {
    if s < |text| && !Space(text[s]) && !Symbol(text[s]) then WordEnd(text, s + 1) else s
  }

  // The token that starts at s, and where it ends.
  function TokenAt(text: string, s: nat): (r: (Token<Span>, nat))
    requires s < |text| && !Space(text[s])
    ensures s < r.1 <= |text|
  {
    if text[s] == '>' then
      if s + 1 < |text| && text[s + 1] == '>' then (Append, s + 2) else (Sym('>'), s + 1)
    else if Symbol(text[s]) then (Sym(text[s]), s + 1)
    else (Word(Span(s, WordEnd(text, s))), WordEnd(text, s))
  }

  // All tokens from s on.
  function Tokens(text: string, s: nat): seq<Token<Span>>
    requires s <= |text|
    decreases |text| - s
  {
    var k := Skip(text, s);
    if k == |text| then [] else [TokenAt(text, k).0] + Tokens(text, TokenAt(text, k).1)
  }

  lemma SkipTokens(text: string, s: nat)
    requires s <= |text|
    ensures Tokens(text, Skip(text, s)) == Tokens(text, s)
  {
    assert Skip(text, Skip(text, s)) == Skip(text, s);
  }

  lemma NextToken(text: string, s: nat)
    requires s <= |text|
    ensures var k := Skip(text, s);
      if k == |text| then Tokens(text, s) == []
      else
        Tokens(text, s) != [] && Tokens(text, s)[0] == TokenAt(text, k).0
        && Tokens(text, s)[1..] == Tokens(text, TokenAt(text, k).1)
  {}

  // ---- words do not run into each other ----

  predicate Words(ts: seq<Token<Span>>, w: Span) { Word(w) in ts }

  lemma {:induction false} WordPlace(text: string, s: nat, w: Span)
    requires s <= |text| && Words(Tokens(text, s), w)
    ensures s <= w.q < w.eq <= |text| && (w.eq == |text| || Space(text[w.eq]) || Symbol(text[w.eq]))
    ensures forall j | w.q <= j < w.eq :: !Space(text[j]) && !Symbol(text[j])
    decreases |text| - s
  {
    var k := Skip(text, s);
    var (t, e) := TokenAt(text, k);
    if t != Word(w) {
      assert Word(w) in Tokens(text, e);
      WordPlace(text, e, w);
    }
  }

  // The place behind a word is in no other word.
  lemma WordsApart(text: string, v: Span, w: Span)
    requires Words(Tokens(text, 0), v) && Words(Tokens(text, 0), w)
    ensures !(w.q <= v.eq < w.eq)
  {
    WordPlace(text, 0, v);
    WordPlace(text, 0, w);
  }

  // ---- writing tokens down, with a blank behind each ----

  predicate ValidWord(w: string) { w != "" && forall j | 0 <= j < |w| :: !Space(w[j]) && !Symbol(w[j]) && w[j] != NUL }

  predicate Writable(t: Token<string>) {
    match t
    case Sym(c) => Symbol(c)
    case Append => true
    case Word(w) => ValidWord(w)
  }

  function Spell(t: Token<string>): string {
    match t
    case Sym(c) => [c]
    case Append => ">>"
    case Word(w) => w
  }

  function Render(ts: seq<Token<string>>): string {
    if ts == [] then "" else Spell(ts[0]) + " " + Render(ts[1..])
  }

  function TextOf(text: string, w: Span): string {
    if w.q <= w.eq <= |text| then text[w.q..w.eq] else ""
  }

  function Reader(text: string): Span -> string { w => TextOf(text, w) }

  lemma {:induction false} WordEndIs(text: string, s: nat, e: nat)
    requires s <= e < |text| && Space(text[e]) && forall j | s <= j < e :: !Space(text[j]) && !Symbol(text[j])
    ensures WordEnd(text, s) == e
    decreases e - s
  {
    if s < e { WordEndIs(text, s + 1, e); }
  }

  lemma FirstToken(text: string, pre: string, t: Token<string>, rest: string)
    requires Writable(t) && text == pre + Spell(t) + " " + rest
    ensures |pre| < |text| && !Space(text[|pre|])
    ensures TokenAt(text, |pre|).1 == |pre| + |Spell(t)| < |text| && text[|pre| + |Spell(t)|] == ' '
    ensures MapToken(TokenAt(text, |pre|).0, Reader(text)) == t
  {
    var s := |pre|;
    assert text[s..s + |Spell(t)|] == Spell(t);
    assert text[s + |Spell(t)|] == ' ';
    forall j | 0 <= j < |Spell(t)| ensures text[s + j] == Spell(t)[j] {}
    if t.Word? { WordEndIs(text, s, s + |t.w|); }
  }

  lemma {:induction false} TokensOfRender(text: string, pre: string, ts: seq<Token<string>>)
    requires (forall k | 0 <= k < |ts| :: Writable(ts[k])) && text == pre + Render(ts)
    ensures MapT(Tokens(text, |pre|), Reader(text)) == ts
    decreases |ts|
  {
    hide Reader, Writable, Spell, TokenAt;
    if ts != [] {
      var rest := Render(ts[1..]);
      FirstToken(text, pre, ts[0], rest);
      var (t, e) := TokenAt(text, |pre|);
      var pre' := pre + Spell(ts[0]) + " ";
      assert text == pre' + rest && |pre'| == e + 1;
      TokensOfRender(text, pre', ts[1..]);
      BlankBehind(text, |pre|, e);
      MapCons(t, Tokens(text, e + 1), Reader(text));
      assert [ts[0]] + ts[1..] == ts;
    }
  }

  lemma BlankBehind(text: string, s: nat, e: nat)
    requires s < |text| && !Space(text[s]) && e == TokenAt(text, s).1 < |text| && text[e] == ' '
    ensures Tokens(text, s) == [TokenAt(text, s).0] + Tokens(text, e + 1)
  {
    assert Skip(text, s) == s;
    assert Skip(text, e) == Skip(text, e + 1);
  }

  lemma MapCons<W, V>(t: Token<W>, ts: seq<Token<W>>, f: W -> V)
    ensures MapT([t] + ts, f) == [MapToken(t, f)] + MapT(ts, f)
  {}

  // ---- a command tree, written down and read back ----

  predicate ValidWords(c: Cmd<string>) {
    match c
    case Exec(argv) => forall k | 0 <= k < |argv| :: ValidWord(argv[k])
    case Redir(d, how) => ValidWords(d) && ValidWord(how.file)
    case Pipe(l, r) => ValidWords(l) && ValidWords(r)
    case List(l, r) => ValidWords(l) && ValidWords(r)
    case Back(d) => ValidWords(d)
  }

  predicate AllWritable(ts: seq<Token<string>>) { forall k | 0 <= k < |ts| :: Writable(ts[k]) }

  lemma {:induction false} BaseWords(c: Cmd<string>)
    requires ValidWords(c)
    ensures ValidWords(Base(c)) && forall k | 0 <= k < |Hows(c)| :: ValidWord(Hows(c)[k].file)
  {
    if c.Redir? { BaseWords(c.cmd); }
  }

  lemma {:induction false} RedirWritable(rs: seq<Redirection<string>>)
    requires forall k | 0 <= k < |rs| :: ValidWord(rs[k].file)
    ensures AllWritable(RedirTokens(rs))
  {
    if rs != [] { RedirWritable(rs[1..]); }
  }

  lemma {:induction false} BackWords(c: Cmd<string>)
    requires ValidWords(c)
    ensures ValidWords(BackBase(c)) && AllWritable(Amps(c))
  {
    if c.Back? { BackWords(c.cmd); }
  }

  lemma {:induction false} LineWritable(c: Cmd<string>)
    requires ValidWords(c)
    ensures AllWritable(PrintLine(c))
    decreases Nodes(c), Rank(3, c)
  {
    if c.List? {
      BackWritable(c.left);
      LineWritable(c.right);
    } else {
      BackWritable(c);
    }
  }

  lemma {:induction false} BackWritable(c: Cmd<string>)
    requires ValidWords(c)
    ensures AllWritable(PrintBack(c))
    decreases Nodes(c), Rank(2, c)
  {
    BackWords(c);
    PipeWritable(BackBase(c));
  }

  lemma {:induction false} PipeWritable(c: Cmd<string>)
    requires ValidWords(c)
    ensures AllWritable(PrintPipe(c))
    decreases Nodes(c), Rank(1, c)
  {
    if c.Pipe? {
      ExecWritable(c.left);
      PipeWritable(c.right);
    } else {
      ExecWritable(c);
    }
  }

  lemma {:induction false} ExecWritable(c: Cmd<string>)
    requires ValidWords(c)
    ensures AllWritable(PrintExec(c))
    decreases Nodes(c), Rank(0, c)
  {
    BaseWords(c);
    RedirWritable(Hows(c));
    if !Base(c).Exec? { LineWritable(Base(c)); }
  }

  // For every command tree with at most 9 arguments a command and words without blanks and symbols:
  // the text of the tree parses, to a tree that reads, in the text, as the one we started from.
  lemma ParsePrinted(c: Cmd<string>)
    requires Good(c) && ValidWords(c)
    ensures var text := Render(PrintLine(c));
      var r := Command(Tokens(text, 0));
      r.Ok? && MapC(r.value, Reader(text)) == c
  {
    var ts := PrintLine(c);
    var text := Render(ts);
    LineWritable(c);
    assert text == "" + text;
    TokensOfRender(text, "", ts);
    PrintedParses(c);
    CommandMap(Tokens(text, 0), Reader(text));
  }

  // ---- the words of a parsed command are words of the text ----

  function Spans(c: Cmd<Span>): set<Span> {
    match c
    case Exec(argv) => set k | 0 <= k < |argv| :: argv[k]
    case Redir(d, how) => Spans(d) + {how.file}
    case Pipe(l, r) => Spans(l) + Spans(r)
    case List(l, r) => Spans(l) + Spans(r)
    case Back(d) => Spans(d)
  }

  lemma {:induction false} FixedSpans(c: Cmd<Span>, f: Span -> Span)
    requires MapC(c, f) == c
    ensures forall w | w in Spans(c) :: f(w) == w
  {
    match c
    case Exec(argv) => assert MapW(argv, f) == argv;
    case Redir(d, how) => FixedSpans(d, f);
    case Pipe(l, r) => FixedSpans(l, f); FixedSpans(r, f);
    case List(l, r) => FixedSpans(l, f); FixedSpans(r, f);
    case Back(d) => FixedSpans(d, f);
  }

  // Replacing everything that is not a word of the text changes nothing.
  lemma SpansAreWords(ts: seq<Token<Span>>)
    requires Command(ts).Ok?
    ensures forall w | w in Spans(Command(ts).value) :: Words(ts, w)
  {
    var f := (w: Span) => if Words(ts, w) then w else Span(w.q + 1, w.eq);
    assert MapT(ts, f) == ts;
    CommandMap(ts, f);
    FixedSpans(Command(ts).value, f);
  }
}

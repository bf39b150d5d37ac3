// What the keys of the serial line do to the line being typed, key by key and word by word.
module LineLaws {
  import opened Serial

  const BACKSPACE: char := 8 as char
  const RUBOUT: char := 127 as char
  const ESCAPE: char := 27 as char

  predicate Word(w: string) { forall k | 0 <= k < |w| :: ' ' <= w[k] <= '~' }

  // Input that comes in two parts.
  lemma {:induction false} InParts(t: Typed, a: string, b: string)
    requires ESCAPE !in a
    ensures Burst(t, a + b) == Burst(Burst(t, a), b)
    decreases |a|
  {
    if a == [] {
      assert a + b == b;
    } else {
      assert (a + b)[0] == a[0] && a[0] in a && (a + b)[1..] == a[1..] + b;
      InParts(Key(t, a[0]), a[1..], b);
    }
  }

  lemma {:induction false} WordTyped(t: Typed, w: string)
    requires Word(w)
    ensures Burst(t, w) == Typed(t.done, t.cur + w)
    decreases |w|
  {
    if w == [] {
      assert t.cur + w == t.cur;
    } else {
      WordTyped(Key(t, w[0]), w[1..]);
      assert t.cur + [w[0]] + w[1..] == t.cur + w;
    }
  }

  // A word and Enter, whichever of the two characters Enter sends, complete a line.
  lemma Enter(done: string, w: string, e: char)
    requires Word(w) && (e == '\r' || e == '\n')
    ensures Burst(Typed(done, []), w + [e]) == Typed(done + w + "\n", [])
  {
    forall k | 0 <= k < |w| ensures w[k] != ESCAPE {}
    InParts(Typed(done, []), w, [e]);
    WordTyped(Typed(done, []), w);
    var t := Typed(done, [] + w);
    assert [e][1..] == [];
    assert Burst(t, [e]) == Burst(Key(t, e), []);
    assert done + ([] + w) == done + w;
  }

  // Backspace and delete take back the character before them.
  lemma TakenBack(t: Typed, c: char, b: char, keys: string)
    requires ' ' <= c <= '~' && (b == BACKSPACE || b == RUBOUT)
    ensures Burst(t, [c, b] + keys) == Burst(t, keys)
  {
    assert ([c, b] + keys)[1..] == [b] + keys && ([b] + keys)[1..] == keys;
    assert (t.cur + [c])[..|t.cur|] == t.cur;
  }

  // On an empty line they do nothing, so a completed line stays.
  lemma NothingToTake(done: string, b: char, keys: string)
    requires b == BACKSPACE || b == RUBOUT
    ensures Burst(Typed(done, []), [b] + keys) == Burst(Typed(done, []), keys)
  {
    assert ([b] + keys)[1..] == keys;
  }

  // Other control characters, and those beyond, do nothing.
  lemma Ignored(t: Typed, c: char, keys: string)
    requires c < ' ' || c > RUBOUT
    requires c != BACKSPACE && c != '\r' && c != '\n' && c != ESCAPE
    ensures Burst(t, [c] + keys) == Burst(t, keys)
  {
    assert ([c] + keys)[1..] == keys;
  }

  // Of a special key, and of what comes with it, nothing stays.
  lemma {:induction false} SpecialKey(t: Typed, keys: string, rest: string)
    ensures Burst(t, keys + [ESCAPE] + rest) == Burst(t, keys)
    decreases |keys|
  {
    var all := keys + [ESCAPE] + rest;
    if keys != [] {
      assert all[0] == keys[0] && all[1..] == keys[1..] + [ESCAPE] + rest;
      if keys[0] != ESCAPE { SpecialKey(Key(t, keys[0]), keys[1..], rest); }
    }
  }

  // A command with a slip in it, corrected: the reader gets the command.
  lemma Corrected(done: string, w: string, slip: string, v: string, b: char, e: char)
    requires Word(w) && Word(slip) && Word(v) && (b == BACKSPACE || b == RUBOUT) && (e == '\r' || e == '\n')
    ensures Burst(Typed(done, []), w + slip + seq(|slip|, _ => b) + (v + [e])) == Typed(done + w + v + "\n", [])
  {
    var t := Typed(done, []);
    var backs := seq(|slip|, _ => b);
    forall k | 0 <= k < |w + slip + backs| ensures (w + slip + backs)[k] != ESCAPE {}
    InParts(t, w + slip + backs, v + [e]);
    forall k | 0 <= k < |w + slip| ensures (w + slip)[k] != ESCAPE {}
    InParts(t, w + slip, backs);
    forall k | 0 <= k < |w| ensures w[k] != ESCAPE {}
    InParts(t, w, slip);
    WordTyped(t, w);
    WordTyped(Typed(done, w), slip);
    assert [] + w == w;
    AllBack(done, w, slip, b);
    forall k | 0 <= k < |v| ensures v[k] != ESCAPE {}
    InParts(Typed(done, w), v, [e]);
    WordTyped(Typed(done, w), v);
    var u := Typed(done, w + v);
    assert [e][1..] == [];
    assert Burst(u, [e]) == Burst(Key(u, e), []);
    assert done + (w + v) == done + w + v;
  }

  lemma {:induction false} AllBack(done: string, w: string, slip: string, b: char)
    requires b == BACKSPACE || b == RUBOUT
    ensures Burst(Typed(done, w + slip), seq(|slip|, _ => b)) == Typed(done, w)
    decreases |slip|
  {
    var backs := seq(|slip|, _ => b);
    if slip == [] {
      assert w + slip == w;
    } else {
      var less := slip[..|slip| - 1];
      assert (w + slip)[..|w + slip| - 1] == w + less;
      assert backs[1..] == seq(|less|, _ => b);
      AllBack(done, w, less, b);
    }
  }
}

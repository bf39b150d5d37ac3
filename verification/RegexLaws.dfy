// What patterns mean, for patterns one can read off: words, ^ and $, dots and stars, in
// user/src/phase6/grep.c.
module RegexLaws {
  import opened Regex

  predicate Plain(re: string) { forall k | 0 <= k < |re| :: re[k] !in "^.*$" }

  function Ones(re: string): (r: seq<Item>)
    ensures |r| == |re|
  {
    seq(|re|, k requires 0 <= k < |re| => One(re[k]))
  }

  lemma {:induction false} ParsePlain(re: string, tail: string)
    requires Plain(re) && (tail == "" || tail == "$")
    ensures Parse(re + tail) == Pattern(Ones(re), tail == "$")
  {
    if re == [] {
      assert re + tail == tail;
    } else {
      var all := re + tail;
      assert all[0] == re[0] && all[1..] == re[1..] + tail;
      assert |all| >= 2 ==> all[1] != '*' by { assert |re| > 1 ==> all[1] == re[1]; }
      ParsePlain(re[1..], tail);
      assert Ones(re) == [One(re[0])] + Ones(re[1..]);
    }
  }

  lemma {:induction false} HerePlain(re: string, text: string, toEnd: bool)
    requires Plain(re)
    ensures Here(Pattern(Ones(re), toEnd), text) <==> re <= text && (toEnd ==> |text| == |re|)
  {
    hide Here;
    if re == [] {
      assert Ones(re) == [];
      HereEmpty(text, toEnd);
    } else {
      assert Ones(re) == [One(re[0])] + Ones(re[1..]);
      HereOne(re[0], Pattern(Ones(re[1..]), toEnd), text);
      if text != [] {
        HerePlain(re[1..], text[1..], toEnd);
        assert re <= text <==> re[0] == text[0] && re[1..] <= text[1..] by {
          assert re == [re[0]] + re[1..] && text == [text[0]] + text[1..];
        }
      }
    }
  }

  // A word without special characters is found exactly where it stands in the text; ^ ties it to the
  // start and $ to the end.
  lemma Words(re: string, text: string)
    requires Plain(re)
    ensures Matches(re, text) <==> exists i: nat :: i <= |text| && re <= text[i..]
    ensures Matches("^" + re, text) <==> re <= text
    ensures Matches(re + "$", text) <==> |re| <= |text| && text[|text| - |re|..] == re
    ensures Matches("^" + re + "$", text) <==> text == re
  {
    hide Here;
    assert re + "" == re && ("^" + re)[1..] == re && ("^" + re + "$")[1..] == re + "$";
    ParsePlain(re, "");
    ParsePlain(re, "$");
    HerePlain(re, text, false);
    HerePlain(re, text, true);
    forall i: nat | i <= |text|
      ensures Here(Parse(re), text[i..]) <==> re <= text[i..]
      ensures Here(Parse(re + "$"), text[i..]) <==> text[i..] == re
    {
      HerePlain(re, text[i..], false);
      HerePlain(re, text[i..], true);
    }
    assert re != [] ==> (re + "$")[0] == re[0];
    if |re| <= |text| && text[|text| - |re|..] == re { assert Here(Parse(re + "$"), text[|text| - |re|..]); }
  }

  function Dots(n: nat): (s: string)
    ensures |s| == n
  {
    seq(n, _ => '.')
  }

  lemma {:induction false} HereDots(n: nat, text: string, toEnd: bool)
    ensures Parse(Dots(n) + if toEnd then "$" else "").toEnd == toEnd
    ensures Here(Parse(Dots(n) + if toEnd then "$" else ""), text) <==> if toEnd then |text| == n else |text| >= n
  {
    hide Here;
    var tail := if toEnd then "$" else "";
    var re := Dots(n) + tail;
    if n == 0 {
      assert re == tail;
      HereEmpty(text, toEnd);
    } else {
      assert re[0] == '.' && re[1..] == Dots(n - 1) + tail && re != "$";
      assert |re| >= 2 ==> re[1] != '*';
      var p := Parse(re[1..]);
      HereDots(n - 1, if text == [] then text else text[1..], toEnd);
      HereOne('.', p, text);
    }
  }

  // A dot stands for any one character.
  lemma DotsCount(n: nat, text: string)
    ensures Matches("^" + Dots(n) + "$", text) <==> |text| == n
    ensures Matches(Dots(n), text) <==> |text| >= n
  {
    hide Here;
    assert ("^" + Dots(n) + "$")[1..] == Dots(n) + "$" && Dots(n) + "" == Dots(n);
    HereDots(n, text, true);
    HereDots(n, text, false);
    assert text[0..] == text;
    forall i: nat | i <= |text| ensures Here(Parse(Dots(n)), text[i..]) ==> |text| >= n {
      HereDots(n, text[i..], false);
    }
  }

  lemma SomeTaken(c: char, re: string, text: string)
    requires Plain(re)
    ensures (exists k: nat :: StarTakes(c, Pattern(Ones(re), true), text, k)) <==>
      |re| <= |text| && text[|text| - |re|..] == re && forall m | 0 <= m < |text| - |re| :: c == '.' || text[m] == c
  {
    hide Here;
    var p := Pattern(Ones(re), true);
    forall k: nat | k <= |text| ensures Here(p, text[k..]) <==> text[k..] == re { HerePlain(re, text[k..], true); }
    if |re| <= |text| && text[|text| - |re|..] == re && forall m | 0 <= m < |text| - |re| :: c == '.' || text[m] == c {
      assert StarTakes(c, p, text, |text| - |re|);
    }
  }

  // c* takes any number of c, none included, and .* takes everything.
  lemma Stars(c: char, re: string, text: string)
    requires Plain(re)
    ensures Matches("^" + [c, '*'] + re + "$", text) <==>
      |re| <= |text| && text[|text| - |re|..] == re && forall m | 0 <= m < |text| - |re| :: c == '.' || text[m] == c
  {
    hide Here, StarTakes;
    var body := [c, '*'] + re + "$";
    assert ("^" + [c, '*'] + re + "$")[1..] == body;
    ParsePlain(re, "$");
    assert body[2..] == re + "$" && body[0] == c && body[1] == '*';
    var p := Pattern(Ones(re), true);
    assert Parse(body) == Pattern([Star(c)] + p.items, p.toEnd);
    HereStar(c, p, text);
    SomeTaken(c, re, text);
  }
}

// lib/src/stdlib/{utoa,itoa,strtoul,strtol}.c and the function `number` of lib/src/stdio.c, lines 27-115:
// numbers written as digits and read back, in 32 bits.
module Numbers {
  import opened Bytes

  const NUL := '\0'
  const ULONG_MAX := 0xffff_ffff
  const LONG_MAX := 0x7fff_ffff
  const LONG_MIN := -0x8000_0000

  type i32 = v: int | LONG_MIN <= v <= LONG_MAX

  // (unsigned) of a signed number
  function Unsigned(v: int): u32 { v % 0x1_0000_0000 }

  // ---- digits ----

  function Digit(d: nat): char
    requires d < 36
  {
    if d < 10 then (48 + d) as char else (87 + d) as char
  }

  function UpperDigit(d: nat): char
    requires d < 36
  {
    if d < 10 then (48 + d) as char else (55 + d) as char
  }

  // The value of a digit character, -1 for any other.
  function DigitOf(c: char): (d: int)
    ensures -1 <= d < 36
  {
    if '0' <= c <= '9' then c as int - 48
    else if 'A' <= c <= 'Z' then c as int - 55
    else if 'a' <= c <= 'z' then c as int - 87
    else -1
  }

  lemma DigitRead(d: nat)
    requires d < 36
    ensures DigitOf(Digit(d)) == d && DigitOf(UpperDigit(d)) == d
  {}

  predicate IsDigit(c: char, b: int) { 0 <= DigitOf(c) < b }

  // Quotient and remainder, with what is needed to know about them.
  function Quo(v: nat, b: nat): (q: nat)
    requires 2 <= b
    ensures q == 0 <==> v < b
    ensures v >= 1 ==> q < v
    ensures q <= v / 2
  {
    QuoBounds(v, b);
    v / b
  }

  function Rem(v: nat, b: nat): (r: nat)
    requires 2 <= b
    ensures r < b
  {
    v % b
  }

  lemma QuoBounds(v: nat, b: nat)
    requires 2 <= b
    ensures v / b == 0 <==> v < b
    ensures v / b <= v / 2
  {
    var q := v / b;
    Product(q, b, v);
    assert q * b <= v < q * b + b;
  }

  lemma Product(q: nat, b: nat, v: nat)
    requires 2 <= b
    ensures q * b >= q * 2 && (q >= 1 ==> q * b >= b)
  {
    assert q * b == q * 2 + q * (b - 2);
  }

  lemma QuoRem(v: nat, b: nat)
    requires 2 <= b
    ensures Quo(v, b) * b + Rem(v, b) == v && Quo(v, b) == v / b && Rem(v, b) == v % b
  {}

  function Shown(d: nat, upper: bool): char
    requires d < 36
  {
    if upper then UpperDigit(d) else Digit(d)
  }

  // v in base b, the most significant digit first, no leading zeros.
  function Num(v: nat, b: nat, upper: bool): (s: string)
    requires 2 <= b <= 36
    ensures s != []
  {
    (if Quo(v, b) == 0 then [] else Num(Quo(v, b), b, upper)) + [Shown(Rem(v, b), upper)]
  }

  // What a string of digits stands for.
  function Val(s: string, b: nat): nat {
    if s == [] then 0 else Val(s[..|s| - 1], b) * b + (if DigitOf(s[|s| - 1]) >= 0 then DigitOf(s[|s| - 1]) else 0)
  }

  lemma ValSnoc(s: string, c: char, b: nat)
    requires DigitOf(c) >= 0
    ensures Val(s + [c], b) == Val(s, b) * b + DigitOf(c)
  {
    assert (s + [c])[..|s|] == s;
  }

  lemma {:induction false} NumVal(v: nat, b: nat, upper: bool)
    requires 2 <= b <= 36
    ensures Val(Num(v, b, upper), b) == v
    ensures forall k | 0 <= k < |Num(v, b, upper)| :: IsDigit(Num(v, b, upper)[k], b)
    decreases v
  {
    hide Val, Quo, Rem;
    var q, d := Quo(v, b), Rem(v, b);
    DigitRead(d);
    var front := if q == 0 then [] else Num(q, b, upper);
    if q != 0 { NumVal(q, b, upper); } else { ValEmpty(b); }
    ValSnoc(front, Shown(d, upper), b);
    QuoRem(v, b);
    assert Num(v, b, upper) == front + [Shown(d, upper)];
  }

  lemma ValEmpty(b: nat)
    ensures Val([], b) == 0
  {}

  // 32-bit numbers have at most 32 digits.
  lemma {:induction false} NumLength(v: nat, b: nat, upper: bool, n: nat)
    requires 2 <= b <= 36 && 1 <= n && v < Pow2(n)
    ensures |Num(v, b, upper)| <= n
    decreases n
  {
    hide Quo, Rem;
    if Quo(v, b) != 0 {
      assert n > 1 by { assert Pow2(1) == 2 * Pow2(0); }
      assert v / 2 < Pow2(n - 1);
      NumLength(Quo(v, b), b, upper, n - 1);
    }
  }

  // ---- utoa and itoa ----

  function Reversed(s: string): (r: string)
    ensures |r| == |s| && forall k | 0 <= k < |s| :: r[k] == s[|s| - 1 - k]
  {
    seq(|s|, k requires 0 <= k < |s| => s[|s| - 1 - k])
  }

  // Digits from the lowest up.
  function Backward(v: nat, b: nat, upper: bool): (s: string)
    requires 2 <= b <= 36
  {
    Reversed(Num(v, b, upper))
  }

  // The digit at place i of all, when the digits of v are still to come, and what is to come then.
  lemma BackwardStep(v: nat, b: nat, upper: bool, all: string, i: nat)
    requires 2 <= b <= 36 && i <= |all| && all[i..] == Backward(v, b, upper)
    ensures i < |all| && all[i] == Shown(Rem(v, b), upper) && (Quo(v, b) == 0 <==> i + 1 == |all|)
    ensures Quo(v, b) != 0 ==> all[i + 1..] == Backward(Quo(v, b), b, upper)
  {
    hide Quo, Rem, Shown;
    var front := if Quo(v, b) == 0 then [] else Num(Quo(v, b), b, upper);
    ReverseSnoc(front, Shown(Rem(v, b), upper));
    assert all[i..] == [Shown(Rem(v, b), upper)] + Reversed(front);
    assert all[i] == all[i..][0] && all[i + 1..] == all[i..][1..];
  }

  lemma ReverseSnoc(s: string, c: char)
    ensures Reversed(s + [c]) == [c] + Reversed(s)
  {}

  lemma ReverseTwice(s: string)
    ensures Reversed(Reversed(s)) == s
  {}

  method Utoa(value: u32, str: array<char>, off: nat, base: int) returns (ok: bool, ghost n: nat)
    requires off + 33 <= str.Length
    modifies str
    ensures ok <==> 2 <= base <= 36
    ensures !ok ==> str[off] == NUL && n == 0
    ensures ok ==>
      n == |Num(value, base, false)| <= 32 && str[off..off + n] == Num(value, base, false) && str[off + n] == NUL
    ensures forall k | 0 <= k < off :: str[k] == old(str[k])
  {
    hide Num, Backward, Reversed;
    if base < 2 || base > 36 {
      str[off] := NUL;
      return false, 0;
    }
    Pow2Values();
    NumLength(value, base, false, 32);
    BackwardIs(value, base, false);
    var i := DigitsBackward(value, str, off, base);
    assert str[off..off + i] == Backward(value, base, false);
    Reverse(str, off, i);
    str[off + i] := NUL;
    n := i;
    assert str[off..off + n] == Num(value, base, false);
    return true, n;
  }

  lemma BackwardIs(v: nat, b: nat, upper: bool)
    requires 2 <= b <= 36
    ensures |Backward(v, b, upper)| == |Num(v, b, upper)| && Reversed(Backward(v, b, upper)) == Num(v, b, upper)
  {
    ReverseTwice(Num(v, b, upper));
  }

  // The loop of utoa that writes the digits, the lowest first.
  method DigitsBackward(value: u32, str: array<char>, off: nat, base: nat) returns (i: nat)
    requires 2 <= base <= 36 && off + |Backward(value, base, false)| < str.Length
    modifies str
    ensures i == |Backward(value, base, false)| >= 1
    ensures forall k | 0 <= k < i :: str[off + k] == Backward(value, base, false)[k]
    ensures forall k | 0 <= k < off :: str[k] == old(str[k])
  {
    hide Backward, Shown, Quo, Rem;
    ghost var all := Backward(value, base, false);
    BackwardIs(value, base, false);
    var v: nat := value;
    i := 0;
    while true
      invariant i < |all| && all[i..] == Backward(v, base, false)
      invariant forall k | 0 <= k < i :: str[off + k] == all[k]
      invariant forall k | 0 <= k < off :: str[k] == old(str[k])
      decreases v
    {
      BackwardStep(v, base, false, all, i);
      var remainder := Rem(v, base);
      str[off + i] := Shown(remainder, false);
      i := i + 1;
      v := Quo(v, base);
      if v == 0 { break; }
    }
  }

  // The loop at the end of utoa.
  method Reverse(str: array<char>, off: nat, n: nat)
    requires off + n <= str.Length && n >= 1
    modifies str
    ensures str[off..off + n] == Reversed(old(str[off..off + n]))
    ensures forall k | 0 <= k < str.Length && !(off <= k < off + n) :: str[k] == old(str[k])
  {
    var j, i := 0, n - 1;
    while j < i
      invariant 0 <= j <= i + 1 && j + i == n - 1
      invariant forall k | 0 <= k < str.Length && !(off <= k < off + n) :: str[k] == old(str[k])
      invariant forall k | off <= k < off + j :: str[k] == old(str[off + n - 1 - (k - off)])
      invariant forall k | off + i < k < off + n :: str[k] == old(str[off + n - 1 - (k - off)])
      invariant forall k | off + j <= k <= off + i :: str[k] == old(str[k])
    {
      var c := str[off + j];
      str[off + j] := str[off + i];
      str[off + i] := c;
      j, i := j + 1, i - 1;
    }
  }

  // The decimal form of a signed number.
  function Signed(v: i32): string { if v < 0 then "-" + Num(-(v as int), 10, false) else Num(v, 10, false) }

  method Itoa(value: i32, str: array<char>, base: int) returns (ok: bool, ghost n: nat)
    requires 34 <= str.Length
    modifies str
    ensures ok <==> 2 <= base <= 36
    ensures ok ==> n < str.Length && str[n] == NUL
    ensures ok ==> str[..n] == if base == 10 then Signed(value) else Num(Unsigned(value), base, false)
  {
    hide Num, Quo, Rem;
    if base < 2 || base > 36 {
      str[0] := NUL;
      return false, 0;
    }
    if base == 10 && value < 0 {
      str[0] := '-';
      assert Unsigned(-(value as int)) == -(value as int);
      ok, n := Utoa(Unsigned(-(value as int)), str, 1, base);
      n := n + 1;
      assert str[..n] == ['-'] + str[1..n];
    } else {
      ok, n := Utoa(Unsigned(value), str, 0, base);
      assert str[..n] == str[0..0 + n];
    }
  }

  // ---- strtoul and strtol ----

  predicate Space(c: char) { c == ' ' || c == '\t' || c == '\n' }

  function At(s: string, i: nat): char { if i < |s| then s[i] else NUL }

  function SkipSpace(s: string, i: nat): (k: nat)
    ensures i <= k && !Space(At(s, k)) && forall j | i <= j < k :: Space(At(s, j))
    decreases |s| - i
  {
    if Space(At(s, i)) then SkipSpace(s, i + 1) else i
  }

  // Sign, base and place of the first digit.
  datatype Scan = Scan(neg: bool, base: i32, from: nat)

  function ScanOf(s: string, base: i32): (p: Scan)
    ensures p.base != 0
  {
    var k := SkipSpace(s, 0);
    var neg := At(s, k) == '-';
    var d := if neg || At(s, k) == '+' then k + 1 else k;
    if (base == 0 || base == 16) && At(s, d) == '0' && (At(s, d + 1) == 'x' || At(s, d + 1) == 'X') then
      Scan(neg, 16, d + 2)
    else if base == 0 then Scan(neg, if At(s, d) == '0' then 8 else 10, d)
    else Scan(neg, base, d)
  }

  // The digits from place i on.
  function Run(s: string, b: int, i: nat): (r: string)
    ensures i + |r| <= |s| || r == []
    ensures forall k | 0 <= k < |r| :: i + k < |s| && r[k] == s[i + k] && IsDigit(r[k], b)
    ensures !IsDigit(At(s, i + |r|), b)
    decreases |s| - i
  {
    if i < |s| && IsDigit(s[i], b) then [s[i]] + Run(s, b, i + 1) else []
  }

  // The loop both functions share: the value of the run, unless it exceeds the limit. The character
  // at place i is in c; s points behind it.
  method Accumulate(s: string, b: i32, i: nat, limit: u32) returns (acc: u32, any: int, end: nat)
    requires b != 0
    ensures var r := Run(s, b, i);
      && end == i + |r| && (any == 0 <==> r == []) && (any == 0 ==> acc == 0)
      && (b > 0 ==> (any < 0 <==> Val(r, b) > limit) && (any >= 0 ==> acc == Val(r, b)))
  {
    hide Val;
    if b < 0 {
      // no digit is below a negative base: the first test ends the loop
      return 0, 0, i;
    }
    hide Run, Taken;
    var cutoff, cutlim := limit / b, limit % b;
    ghost var n := |Run(s, b, i)|;
    TakenNone(s, b, i, limit);
    acc, any, end := 0, 0, i;
    while true
      invariant i <= end <= i + n && Taken(s, b, i, end, acc, any, limit)
      decreases i + n - end
    {
      var c := DigitOf(At(s, end));
      TakenMore(s, b, i, end, acc, any, limit);
      if c < 0 || c >= b { break; }
      Limit(acc, c, b, limit);
      if any < 0 || acc > cutoff || (acc == cutoff && c > cutlim) {
        any := -1;
      } else {
        any := 1;
        acc := acc * b + c;
      }
      end := end + 1;
    }
    TakenAll(s, b, i, acc, any, limit);
  }

  // The digits from i up to end are taken in: their value is acc, or exceeds the limit if any is negative.
  ghost predicate Taken(s: string, b: nat, i: nat, end: nat, acc: nat, any: int, limit: nat) {
    var r := Run(s, b, i);
    && i <= end <= i + |r| && (any == 0 <==> end == i)
    && if any < 0 then Val(r[..end - i], b) > limit else acc == Val(r[..end - i], b) <= limit
  }

  lemma TakenNone(s: string, b: nat, i: nat, limit: nat)
    ensures Taken(s, b, i, i, 0, 0, limit)
  {
    ValEmpty(b);
    assert Run(s, b, i)[..0] == [];
  }

  lemma RunAt(s: string, b: int, i: nat, k: nat)
    requires k <= |Run(s, b, i)|
    ensures k == |Run(s, b, i)| <==> !IsDigit(At(s, i + k), b)
    ensures k < |Run(s, b, i)| ==> i + k < |s| && Run(s, b, i)[k] == s[i + k]
  {
    hide IsDigit;
    var r := Run(s, b, i);
    assert k < |r| ==> r[k] == s[i + k];
  }

  lemma TakenMore(s: string, b: nat, i: nat, end: nat, acc: nat, any: int, limit: nat)
    requires b >= 1 && Taken(s, b, i, end, acc, any, limit)
    ensures var c := DigitOf(At(s, end));
      if 0 <= c < b then
        && end < i + |Run(s, b, i)|
        && (any < 0 || acc * b + c > limit ==> Taken(s, b, i, end + 1, acc, -1, limit))
        && (any >= 0 && acc * b + c <= limit ==> Taken(s, b, i, end + 1, acc * b + c, 1, limit))
      else end == i + |Run(s, b, i)|
  {
    hide Val, DigitOf;
    var r, c, k := Run(s, b, i), DigitOf(At(s, end)), end - i;
    RunAt(s, b, i, k);
    if 0 <= c < b {
      assert r[..k + 1] == r[..k] + [r[k]];
      ValSnoc(r[..k], r[k], b);
      ValMore(r[..k], r[k], b);
    }
  }

  lemma TakenAll(s: string, b: nat, i: nat, acc: nat, any: int, limit: nat)
    requires Taken(s, b, i, i + |Run(s, b, i)|, acc, any, limit)
    ensures var r := Run(s, b, i);
      && (any == 0 <==> r == []) && (any < 0 <==> Val(r, b) > limit)
      && (any >= 0 ==> acc == Val(r, b)) && (any == 0 ==> acc == 0)
  {
    hide Run;
    var r := Run(s, b, i);
    assert r[..|r|] == r;
  }

  lemma ValMore(s: string, c: char, b: nat)
    requires b >= 1
    ensures Val(s + [c], b) >= Val(s, b)
  {
    assert (s + [c])[..|s|] == s;
    assert Val(s, b) * b >= Val(s, b);
  }

  // The comparison with cutoff and cutlim is the comparison with the limit.
  lemma Limit(acc: nat, c: nat, b: nat, limit: nat)
    requires 1 <= b && c < b
    ensures acc > limit / b || (acc == limit / b && c > limit % b) <==> acc * b + c > limit
  {
    LimitParts(acc, c, b, limit / b, limit % b, limit);
  }

  lemma LimitParts(acc: nat, c: nat, b: nat, q: nat, m: nat, limit: nat)
    requires c < b && m < b && limit == q * b + m
    ensures acc > q || (acc == q && c > m) <==> acc * b + c > limit
  {
    if acc > q { MoreTimes(q, acc, b); }
    if acc < q { MoreTimes(acc, q, b); }
  }

  lemma MoreTimes(x: nat, y: nat, b: nat)
    requires x < y
    ensures y * b >= x * b + b
  {
    assert y * b == x * b + (y - x) * b;
    assert (y - x) * b == b + (y - x - 1) * b;
  }

  // Skipping blanks and the sign, and deciding on the base.
  method Prefix(s: string, base: i32) returns (neg: bool, b: i32, i: nat)
    ensures Scan(neg, b, i) == ScanOf(s, base)
  {
    i := 0;
    while Space(At(s, i))
      invariant SkipSpace(s, 0) == SkipSpace(s, i)
      decreases |s| - i
    {
      i := i + 1;
    }
    neg, b := false, base;
    if At(s, i) == '-' {
      neg := true;
      i := i + 1;
    } else if At(s, i) == '+' {
      i := i + 1;
    }
    if (b == 0 || b == 16) && At(s, i) == '0' && (At(s, i + 1) == 'x' || At(s, i + 1) == 'X') {
      i := i + 2;
      b := 16;
    }
    if b == 0 { b := if At(s, i) == '0' then 8 else 10; }
  }

  // The value of the digit run, negated in 32 bits after a minus sign, ULONG_MAX if it does not fit.
  // Any base will do; a negative one has no digits.
  function UnsignedOf(s: string, base: i32): u32 {
    var p := ScanOf(s, base);
    var v := if p.base < 0 then 0 else Val(Run(s, p.base, p.from), p.base);
    if v > ULONG_MAX then ULONG_MAX else if p.neg then Unsigned(-(v as int)) else v
  }

  // The place behind the digit run, 0 if there is none.
  function EndOf(s: string, base: i32): nat {
    var p := ScanOf(s, base);
    var r := Run(s, p.base, p.from);
    if r == [] then 0 else p.from + |r|
  }

  function Clamp(v: int): i32 { if v < LONG_MIN then LONG_MIN else if v > LONG_MAX then LONG_MAX else v }

  // The value of the digit run with its sign, clamped to what a long can hold.
  function SignedOf(s: string, base: i32): i32
    requires base >= 0
  {
    var p := ScanOf(s, base);
    var v := Val(Run(s, p.base, p.from), p.base);
    Clamp(if p.neg then -(v as int) else v)
  }

  method Strtoul(s: string, base: i32) returns (r: u32, end: nat)
    ensures r == UnsignedOf(s, base) && end == EndOf(s, base)
  {
    var neg, b, i := Prefix(s, base);
    var acc, any, e := Accumulate(s, b, i, ULONG_MAX);
    end := if any != 0 then e else 0;
    if any < 0 { return ULONG_MAX, end; }
    return if neg then Unsigned(-(acc as int)) else acc, end;
  }

  // The last line shows acc, an unsigned long, as the long it is returned as.
  method Strtol(s: string, base: i32) returns (r: i32, end: nat)
    ensures base < 0 || base == 1 || base > 36 ==> r == 0
    ensures 0 <= base <= 36 && base != 1 ==> r == SignedOf(s, base) && end == EndOf(s, base)
  {
    if base < 0 || base == 1 || base > 36 { return 0, 0; }
    var neg, b, i := Prefix(s, base);
    var acc, any, e := Accumulate(s, b, i, if neg then -LONG_MIN else LONG_MAX);
    end := if any != 0 then e else 0;
    if any < 0 { return if neg then LONG_MIN else LONG_MAX, end; }
    return if neg then -(acc as int) else acc, end;
  }

  // ---- reading back what was written ----

  lemma {:induction false} RunAll(s: string, b: nat, i: nat)
    requires i <= |s| && forall k | i <= k < |s| :: IsDigit(s[k], b)
    ensures Run(s, b, i) == s[i..]
    decreases |s| - i
  {
    if i < |s| {
      RunAll(s, b, i + 1);
      assert s[i..] == [s[i]] + s[i + 1..];
    }
  }

  // A number in base 16 or less has no x in it.
  lemma ScanNum(s: string, b: nat)
    requires 2 <= b <= 36 && s != [] && forall k | 0 <= k < |s| :: IsDigit(s[k], b)
    ensures ScanOf(s, b) == Scan(false, b, 0)
  {
    assert IsDigit(s[0], b);
    assert !Space(s[0]) && s[0] != '-' && s[0] != '+';
    assert SkipSpace(s, 0) == 0;
    if b == 16 && |s| > 1 { assert IsDigit(s[1], b); }
  }

  // strtoul(utoa(v, b), b) == v, for every 32-bit v and every base utoa supports.
  lemma UnsignedRoundTrip(v: u32, b: nat)
    requires 2 <= b <= 36
    ensures UnsignedOf(Num(v, b, false), b) == v && EndOf(Num(v, b, false), b) == |Num(v, b, false)|
  {
    var s := Num(v, b, false);
    NumVal(v, b, false);
    ScanNum(s, b);
    RunAll(s, b, 0);
  }

  // strtol(itoa(v, 10), 10) == v, for every long v, the least one included.
  lemma SignedRoundTrip(v: i32)
    ensures SignedOf(Signed(v), 10) == v && EndOf(Signed(v), 10) == |Signed(v)|
  {
    hide Num, Val, Run, ScanOf;
    var s := Signed(v);
    if v < 0 {
      var d := Num(-(v as int), 10, false);
      NumVal(-(v as int), 10, false);
      assert s == "-" + d && s[1..] == d;
      ScanMinus(s);
      RunAll(s, 10, 1);
    } else {
      NumVal(v, 10, false);
      ScanNum(s, 10);
      RunAll(s, 10, 0);
    }
  }

  lemma ScanMinus(s: string)
    requires |s| > 1 && s[0] == '-'
    ensures ScanOf(s, 10) == Scan(true, 10, 1)
  {
    assert SkipSpace(s, 0) == 0;
  }

  // ---- number, of stdio.c ----

  datatype Flags = Flags(zeropad: bool, sign: bool, plus: bool, space: bool, left: bool, prefix: bool, upper: bool)

  function Repeat(c: char, n: int): (s: string)
    ensures |s| == (if n < 0 then 0 else n) && forall k | 0 <= k < |s| :: s[k] == c
  {
    if n < 0 then [] else seq(n, _ => c)
  }

  function SignOf(num: int, f: Flags): (s: string)
    ensures |s| <= 1
  {
    if !f.sign then "" else if num < 0 then "-" else if f.plus then "+" else if f.space then " " else ""
  }

  function PrefixOf(base: nat, f: Flags): (s: string)
    ensures |s| <= 2
  {
    if !f.prefix then "" else if base == 8 then "0" else if base == 16 then "0x" else ""
  }

  // What the digits show: a negative number loses its minus sign if signs are shown, and is taken
  // as unsigned if they are not.
  function Magnitude(num: i32, f: Flags): u32 {
    if f.sign && num < 0 then -(num as int) else Unsigned(num)
  }

  // The digits, filled up with zeros to the precision.
  function Body(num: i32, base: nat, precision: int, f: Flags): (s: string)
    requires 2 <= base <= 36
  {
    var d := Num(Magnitude(num, f), base, f.upper);
    Repeat('0', precision - |d|) + d
  }

  function Text(num: i32, base: nat, size: int, precision: int, f: Flags): string
    requires 2 <= base <= 36
  {
    var head, body := SignOf(num, f) + PrefixOf(base, f), Body(num, base, precision, f);
    var free := size - |head| - |body|;
    if f.left then head + body + Repeat(' ', free)
    else if f.zeropad then head + Repeat('0', free) + body
    else Repeat(' ', free) + head + body
  }

  function Max(a: int, b: int): int { if a < b then b else a }

  // Exactly as many characters as the width asks for or the sign, the prefix and the digits need.
  lemma TextLength(num: i32, base: nat, size: int, precision: int, f: Flags)
    requires 2 <= base <= 36
    ensures |Text(num, base, size, precision, f)|
         == Max(size, |SignOf(num, f)| + |PrefixOf(base, f)| + Max(precision, |Num(Magnitude(num, f), base, f.upper)|))
  {}

  lemma {:induction false} ValZeros(n: nat, s: string, b: nat)
    ensures Val(Repeat('0', n) + s, b) == Val(s, b)
    decreases n + |s|
  {
    var z := Repeat('0', n);
    if s != [] {
      ValZeros(n, s[..|s| - 1], b);
      assert (z + s)[..|z + s| - 1] == z + s[..|s| - 1];
    } else if n > 0 {
      ValZeros(n - 1, [], b);
      assert z + s == z && z[..n - 1] == Repeat('0', n - 1) + [];
    }
  }

  // The width left over by the sign, the prefix and the digits.
  function Free(num: i32, base: nat, size: int, precision: int, f: Flags): int
    requires 2 <= base <= 36
  {
    Max(0, size - |SignOf(num, f)| - |PrefixOf(base, f)| - |Body(num, base, precision, f)|)
  }

  // Between the blanks, behind the sign and the prefix, stand digits that denote the magnitude of the
  // number, with as many zeros in front as the padding and the precision ask for.
  lemma TextDenotes(num: i32, base: nat, size: int, precision: int, f: Flags)
    requires 2 <= base <= 36
    ensures var free := Free(num, base, size, precision, f);
      var digits := Repeat('0', if f.zeropad && !f.left then free else 0) + Body(num, base, precision, f);
      && Text(num, base, size, precision, f)
         == Repeat(' ', if f.zeropad || f.left then 0 else free) + SignOf(num, f) + PrefixOf(base, f) + digits
            + Repeat(' ', if f.left then free else 0)
      && Val(digits, base) == Magnitude(num, f)
      && |digits| >= precision && digits != []
      && (forall k | 0 <= k < |digits| :: IsDigit(digits[k], base))
  {
    hide Val, Num, SignOf, PrefixOf, Magnitude;
    var body := Body(num, base, precision, f);
    var d := Num(Magnitude(num, f), base, f.upper);
    NumVal(Magnitude(num, f), base, f.upper);
    ValZeros(Max(0, precision - |d|), d, base);
    assert body == Repeat('0', Max(0, precision - |d|)) + d;
    assert IsDigit('0', base);
    ValZeros(if f.zeropad && !f.left then Free(num, base, size, precision, f) else 0, body, base);
  }

  // n times the character c. r is the counter when the loop of number has stopped: one less than 0,
  // or than n if n was not positive, because the test decrements.
  method Fill(str: array<char>, at: nat, n: int, c: char) returns (end: nat, r: int)
    requires at + Max(n, 0) <= str.Length
    modifies str
    ensures end == at + Max(n, 0) && r == (if n > 0 then -1 else n - 1)
    ensures str[..end] == old(str[..at]) + Repeat(c, n)
  {
    end, r := at, n;
    ghost var done := 0;
    while r > 0
      invariant 0 <= r || r == n
      invariant end == at + done && done == (if n > 0 then n - r else 0) && (n > 0 ==> r >= 0)
      invariant forall k | 0 <= k < at :: str[k] == old(str[k])
      invariant forall k | at <= k < end :: str[k] == c
    {
      r := r - 1;
      str[end] := c;
      end, done := end + 1, done + 1;
    }
    r := r - 1;
  }

  // The loop that fills tmp.
  method TmpDigits(num: u32, base: nat, upper: bool, tmp: array<char>) returns (i: nat)
    requires 2 <= base <= 36 && 32 <= tmp.Length
    modifies tmp
    ensures i == |Num(num, base, upper)| <= 32 && tmp[..i] == Backward(num, base, upper)
  {
    hide Backward, Num, Quo, Rem;
    Pow2Values();
    NumLength(num, base, upper, 32);
    ghost var all := Backward(num, base, upper);
    BackwardIs(num, base, upper);
    i := 0;
    if num == 0 {
      tmp[0] := '0';
      i := 1;
      assert all[0..] == all;
      BackwardStep(0, base, upper, all, 0);
      QuoRem(0, base);
      assert Quo(0, base) == 0 && Rem(0, base) == 0;
    } else {
      var v: nat := num;
      while v != 0
        invariant i <= |all| && (v != 0 ==> all[i..] == Backward(v, base, upper)) && (v == 0 ==> i == |all|)
        invariant forall k | 0 <= k < i :: tmp[k] == all[k]
        decreases v
      {
        BackwardStep(v, base, upper, all, i);
        tmp[i] := Shown(Rem(v, base), upper);
        v := Quo(v, base);
        i := i + 1;
      }
    }
    assert tmp[..i] == all;
  }

  // The digits of tmp, last one first.
  method CopyBack(str: array<char>, at: nat, tmp: array<char>, n: nat) returns (end: nat)
    requires n <= tmp.Length && at + n <= str.Length && str != tmp
    modifies str
    ensures end == at + n && str[..end] == old(str[..at]) + Reversed(tmp[..n])
  {
    var i := n;
    end := at;
    while i > 0
      invariant 0 <= i <= n && end == at + n - i
      invariant forall k | 0 <= k < at :: str[k] == old(str[k])
      invariant forall k | at <= k < end :: str[k] == tmp[n - 1 - (k - at)]
    {
      i := i - 1;
      str[end] := tmp[i];
      end := end + 1;
    }
  }

  method Put(str: array<char>, at: nat, s: string) returns (end: nat)
    requires at + |s| <= str.Length && |s| <= 2
    modifies str
    ensures end == at + |s| && str[..end] == old(str[..at]) + s
  {
    end := at;
    if |s| > 0 { str[end] := s[0]; end := end + 1; }
    if |s| > 1 { str[end] := s[1]; end := end + 1; }
  }

  // What number writes before the zeros of the precision; r is what is left of the width n.
  method Lead(str: array<char>, at: nat, n: int, sign: string, prefix: string, zeropad: bool, left: bool)
    returns (end: nat, r: int)
    requires at + |sign| + |prefix| + (if left then 0 else Max(n, 0)) <= str.Length
    requires |sign| <= 1 && |prefix| <= 2 && (left ==> !zeropad)
    modifies str
    ensures end == at + |sign| + |prefix| + (if left then 0 else Max(n, 0)) && (if left then r == n else r < 0)
    ensures str[..end] == old(str[..at]) + Repeat(' ', if zeropad || left then 0 else n) + sign + prefix
                          + Repeat('0', if zeropad then n else 0)
  {
    hide Repeat;
    end, r := at, n;
    assert Repeat(' ', 0) == [] && Repeat('0', 0) == [];
    if !zeropad && !left { end, r := Fill(str, end, r, ' '); }
    assert str[..end] == old(str[..at]) + Repeat(' ', if zeropad || left then 0 else n);
    end := Put(str, end, sign);
    end := Put(str, end, prefix);
    assert str[..end] == old(str[..at]) + Repeat(' ', if zeropad || left then 0 else n) + sign + prefix;
    if !left { end, r := Fill(str, end, r, if zeropad then '0' else ' '); }
  }

  // The characters from place at on become Text; an unsupported base writes nothing.
  method Number(str: array<char>, at: nat, num: i32, base: int, size: int, precision: int, flags: Flags)
    returns (ok: bool, end: nat)
    requires 2 <= base <= 36 ==> at + |Text(num, base, size, precision, flags)| <= str.Length
    modifies str
    ensures ok <==> 2 <= base <= 36
    ensures !ok ==> str[..] == old(str[..])
    ensures ok ==> end == at + |Text(num, base, size, precision, flags)| <= str.Length
    ensures ok ==> str[..end] == old(str[..at]) + Text(num, base, size, precision, flags)
  {
    hide Num, Magnitude, SignOf, PrefixOf, Backward, Quo, Rem, Text, Repeat;
    if base < 2 || base > 36 { return false, at; }
    ok := true;
    var sign, prefix := SignOf(num, flags), PrefixOf(base, flags);
    var tmp := new char[66];
    var i := TmpDigits(Magnitude(num, flags), base, flags.upper, tmp);
    var zeropad := flags.zeropad && !flags.left;
    var p := if i > precision then i else precision;
    var n := size - |sign| - |prefix| - p;
    ghost var blanks, zeros := if zeropad || flags.left then 0 else n, if zeropad then n else 0;
    ghost var tail := if flags.left then n else 0;
    ghost var before, digits := old(str[..at]), Num(Magnitude(num, flags), base, flags.upper);
    TextPieces(num, base, size, precision, flags, n);
    end := at;
    end, n := Lead(str, end, n, sign, prefix, zeropad, flags.left);
    assert str[..end] == before + Repeat(' ', blanks) + sign + prefix + Repeat('0', zeros);
    var rest;
    end, rest := Fill(str, end, p - i, '0');
    BackwardIs(Magnitude(num, flags), base, flags.upper);
    end := CopyBack(str, end, tmp, i);
    assert str[..end] == before + Repeat(' ', blanks) + sign + prefix + Repeat('0', zeros) + Repeat('0', p - i)
      + digits;
    end, n := Fill(str, end, n, ' ');
    assert str[..end] == before + Repeat(' ', blanks) + sign + prefix + Repeat('0', zeros) + Repeat('0', p - i) + digits
      + Repeat(' ', tail);
    Assoc(before, Repeat(' ', blanks), sign, prefix, Repeat('0', zeros), Repeat('0', p - i), digits, Repeat(' ', tail));
  }

  lemma Assoc(a: string, b: string, c: string, d: string, e: string, f: string, g: string, h: string)
    ensures a + b + c + d + e + f + g + h == a + (b + c + d + e + f + g + h)
  {}

  // The text as the loops of number write it, one piece after the other.
  lemma TextPieces(num: i32, base: nat, size: int, precision: int, f: Flags, n: int)
    requires 2 <= base <= 36
    requires n == size - |SignOf(num, f)| - |PrefixOf(base, f)|
      - Max(precision, |Num(Magnitude(num, f), base, f.upper)|)
    ensures var d := Num(Magnitude(num, f), base, f.upper);
      Text(num, base, size, precision, f)
        == Repeat(' ', if f.zeropad || f.left then 0 else n) + SignOf(num, f) + PrefixOf(base, f)
        + Repeat('0', if f.zeropad && !f.left then n else 0) + Repeat('0', Max(precision, |d|) - |d|) + d
        + Repeat(' ', if f.left then n else 0)
  {
    hide Num, SignOf, PrefixOf, Magnitude, Repeat;
    var d := Num(Magnitude(num, f), base, f.upper);
    NoRepeat('0', precision - |d|);
    Shapes(SignOf(num, f), PrefixOf(base, f), Repeat('0', Max(precision, |d|) - |d|), d, Repeat(' ', n),
      Repeat('0', n));
    assert Repeat(' ', 0) == [] && Repeat('0', 0) == [];
    FreeIs(num, base, size, precision, f, n);
  }

  // The width left over in Text is the n of number.
  lemma FreeIs(num: i32, base: nat, size: int, precision: int, f: Flags, n: int)
    requires 2 <= base <= 36
    requires n == size - |SignOf(num, f)| - |PrefixOf(base, f)|
      - Max(precision, |Num(Magnitude(num, f), base, f.upper)|)
    ensures n == size - |SignOf(num, f) + PrefixOf(base, f)| - |Body(num, base, precision, f)|
  {
    hide Num, SignOf, PrefixOf, Magnitude;
  }

  lemma NoRepeat(c: char, n: int)
    ensures Repeat(c, n) == Repeat(c, Max(n, 0))
  {}

  lemma Shapes(a: string, b: string, c: string, d: string, blanks: string, zeros: string)
    ensures (a + b) + (c + d) + blanks == [] + a + b + [] + c + d + blanks
    ensures (a + b) + zeros + (c + d) == [] + a + b + zeros + c + d + []
    ensures blanks + (a + b) + (c + d) == blanks + a + b + [] + c + d + []
  {}
}

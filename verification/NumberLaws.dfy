// What numbers look like when they are printed, and what is read back: laws about `number`, strtoul and
// strtol that do not depend on how these functions are put together.
module NumberLaws {
  import opened Numbers

  // ---- reading: what stands in front ----

  predicate Blank(c: char) { c == ' ' || c == '\t' || c == '\n' }

  lemma AtShift(t: string, s: string, i: nat)
    ensures At(t + s, |t| + i) == At(s, i)
  {}

  lemma {:induction false} RunShift(t: string, s: string, b: int, i: nat)
    ensures Run(t + s, b, |t| + i) == Run(s, b, i)
    decreases |s| - i
  {
    if i < |s| && IsDigit(s[i], b) { RunShift(t, s, b, i + 1); }
  }

  lemma {:induction false} SkipShift(t: string, s: string, i: nat)
    ensures SkipSpace(t + s, |t| + i) == |t| + SkipSpace(s, i)
    decreases |s| - i
  {
    AtShift(t, s, i);
    if Space(At(s, i)) { SkipShift(t, s, i + 1); }
  }

  lemma BlankScan(c: char, s: string, b: i32)
    requires Blank(c)
    ensures ScanOf([c] + s, b) == ScanOf(s, b).(from := ScanOf(s, b).from + 1)
  {
    SkipShift([c], s, 0);
    var k := SkipSpace(s, 0);
    AtShift([c], s, k);
    AtShift([c], s, k + 1);
    AtShift([c], s, k + 2);
  }

  // Leading blanks, tabs and newlines do not count.
  lemma LeadingBlank(c: char, s: string, b: i32)
    requires Blank(c)
    ensures UnsignedOf([c] + s, b) == UnsignedOf(s, b) && (b >= 0 ==> SignedOf([c] + s, b) == SignedOf(s, b))
    ensures EndOf([c] + s, b) == if EndOf(s, b) == 0 then 0 else EndOf(s, b) + 1
  {
    hide Val, Run, ScanOf;
    BlankScan(c, s, b);
    RunShift([c], s, ScanOf(s, b).base, ScanOf(s, b).from);
  }

  lemma {:induction false} LeadingBlanks(n: nat, s: string, b: i32)
    ensures UnsignedOf(Repeat(' ', n) + s, b) == UnsignedOf(s, b)
    ensures b >= 0 ==> SignedOf(Repeat(' ', n) + s, b) == SignedOf(s, b)
  {
    hide UnsignedOf, SignedOf;
    if n == 0 {
      assert Repeat(' ', 0) + s == s;
    } else {
      LeadingBlanks(n - 1, s, b);
      LeadingBlank(' ', Repeat(' ', n - 1) + s, b);
      assert Repeat(' ', n) + s == [' '] + (Repeat(' ', n - 1) + s);
    }
  }

  // A digit of some base in front.
  predicate Starts(s: string) { s != [] && DigitOf(s[0]) >= 0 }

  lemma SignScan(c: char, s: string, b: i32)
    requires (c == '+' || c == '-') && Starts(s)
    ensures ScanOf([c] + s, b) == Scan(c == '-', ScanOf(s, b).base, ScanOf(s, b).from + 1) && !ScanOf(s, b).neg
  {
    var t := [c] + s;
    AtShift([c], s, 0);
    AtShift([c], s, 1);
    assert !Space(At(t, 0)) && SkipSpace(t, 0) == 0;
    assert !Space(At(s, 0)) && SkipSpace(s, 0) == 0;
    assert At(s, 0) != '-' && At(s, 0) != '+';
  }

  // A plus sign changes nothing; a minus sign negates, in 32 bits for strtoul.
  lemma PlusSign(s: string, b: i32)
    requires Starts(s)
    ensures UnsignedOf("+" + s, b) == UnsignedOf(s, b) && (b >= 0 ==> SignedOf("+" + s, b) == SignedOf(s, b))
  {
    hide Val, Run, ScanOf, Starts;
    SignScan('+', s, b);
    RunShift("+", s, ScanOf(s, b).base, ScanOf(s, b).from);
  }

  // What stands for the digits of s.
  function Denoted(s: string, b: i32): nat {
    var p := ScanOf(s, b);
    if p.base < 0 then 0 else Val(Run(s, p.base, p.from), p.base)
  }

  lemma BaseAbove(s: string, b: i32)
    requires b >= 0
    ensures ScanOf(s, b).base > 0
  {}

  lemma MinusSign(s: string, b: i32)
    requires Starts(s)
    ensures Denoted(s, b) <= ULONG_MAX ==> (UnsignedOf("-" + s, b) + UnsignedOf(s, b)) % 0x1_0000_0000 == 0
    ensures b >= 0 ==>
      SignedOf("-" + s, b) == if Denoted(s, b) <= 0x8000_0000 then -(Denoted(s, b) as int) else LONG_MIN
  {
    hide Val, Run, ScanOf, Starts;
    SignScan('-', s, b);
    if b >= 0 { BaseAbove(s, b); }
    RunShift("-", s, ScanOf(s, b).base, ScanOf(s, b).from);
  }

  // ---- reading: digits and prefixes ----

  predicate Digits(s: string, b: nat) { s != [] && forall k | 0 <= k < |s| :: IsDigit(s[k], b) }

  // The text goes on with something that is no digit and no x, or ends.
  predicate Stops(t: string) { t == [] || t[0] == ' ' }

  lemma {:induction false} RunDigits(s: string, t: string, b: nat, i: nat)
    requires i <= |s| && Stops(t) && forall k | i <= k < |s| :: IsDigit(s[k], b)
    ensures Run(s + t, b, i) == s[i..]
    decreases |s| - i
  {
    if i < |s| {
      RunDigits(s, t, b, i + 1);
      assert s[i..] == [s[i]] + s[i + 1..];
    }
  }

  lemma PlainScan(s: string, t: string, b: nat)
    requires 2 <= b <= 36 && Digits(s, b) && Stops(t)
    ensures ScanOf(s + t, b) == Scan(false, b, 0)
  {
    var u := s + t;
    assert IsDigit(s[0], b);
    assert SkipSpace(u, 0) == 0;
    if |s| > 1 { assert IsDigit(s[1], b); }
  }

  // A string of digits in its own base.
  lemma Plain(s: string, t: string, b: nat)
    requires 2 <= b <= 36 && Digits(s, b) && Stops(t)
    ensures UnsignedOf(s + t, b) == (if Val(s, b) > ULONG_MAX then ULONG_MAX else Val(s, b))
    ensures SignedOf(s + t, b) == (if Val(s, b) > LONG_MAX then LONG_MAX else Val(s, b))
    ensures Denoted(s + t, b) == Val(s, b) && EndOf(s + t, b) == |s|
  {
    hide Val, ScanOf;
    PlainScan(s, t, b);
    RunDigits(s, t, b, 0);
    assert s[0..] == s;
  }

  lemma HexScan(s: string, t: string, x: char, b: nat)
    requires (x == 'x' || x == 'X') && Digits(s, 16) && Stops(t) && (b == 0 || b == 16)
    ensures ScanOf(['0', x] + s + t, b) == Scan(false, 16, 2)
  {
    assert SkipSpace(['0', x] + s + t, 0) == 0;
  }

  // 0x or 0X in front is skipped for base 16, and chooses it for base 0.
  lemma HexPrefix(s: string, t: string, x: char, b: nat)
    requires (x == 'x' || x == 'X') && Digits(s, 16) && Stops(t) && (b == 0 || b == 16)
    ensures UnsignedOf(['0', x] + s + t, b) == UnsignedOf(s + t, 16)
    ensures SignedOf(['0', x] + s + t, b) == SignedOf(s + t, 16)
    ensures Denoted(['0', x] + s + t, b) == Denoted(s + t, 16)
    ensures EndOf(['0', x] + s + t, b) == |s| + 2
  {
    hide Val, ScanOf;
    HexScan(s, t, x, b);
    PlainScan(s, t, 16);
    assert ['0', x] + s + t == ['0', x] + (s + t);
    RunShift(['0', x], s + t, 16, 0);
    RunDigits(s, t, 16, 0);
    assert s[0..] == s;
  }

  lemma OctalScan(s: string, t: string)
    requires Digits(s, 8) && Stops(t)
    ensures ScanOf("0" + s + t, 0) == Scan(false, 8, 0)
  {
    assert IsDigit(s[0], 8);
    assert SkipSpace("0" + s + t, 0) == 0;
  }

  // Another 0 in front chooses base 8 for base 0, and any other digit base 10.
  lemma OctalPrefix(s: string, t: string)
    requires Digits(s, 8) && Stops(t)
    ensures UnsignedOf("0" + s + t, 0) == UnsignedOf(s + t, 8) && SignedOf("0" + s + t, 0) == SignedOf(s + t, 8)
    ensures Denoted("0" + s + t, 0) == Denoted(s + t, 8)
  {
    hide Val, ScanOf;
    OctalScan(s, t);
    PlainScan(s, t, 8);
    RunDigits("0" + s, t, 8, 0);
    RunDigits(s, t, 8, 0);
    assert s[0..] == s && ("0" + s)[0..] == "0" + s;
    ZeroFirst(s, 8);
  }

  lemma ZeroFirst(s: string, b: nat)
    ensures Val("0" + s, b) == Val(s, b)
  {
    ValZeros(1, s, b);
    assert Repeat('0', 1) == "0";
  }

  lemma DecimalScan(s: string, t: string)
    requires Digits(s, 10) && s[0] != '0' && Stops(t)
    ensures ScanOf(s + t, 0) == Scan(false, 10, 0)
  {
    assert IsDigit(s[0], 10);
    assert SkipSpace(s + t, 0) == 0;
  }

  lemma NoPrefix(s: string, t: string)
    requires Digits(s, 10) && s[0] != '0' && Stops(t)
    ensures UnsignedOf(s + t, 0) == UnsignedOf(s + t, 10) && SignedOf(s + t, 0) == SignedOf(s + t, 10)
  {
    hide Val, ScanOf, Run;
    DecimalScan(s, t);
    PlainScan(s, t, 10);
  }

  // Without a digit the result is 0 and the end is the beginning.
  lemma NoDigits(s: string, b: nat)
    requires 2 <= b <= 36 && (s == [] || (!Blank(s[0]) && s[0] != '+' && s[0] != '-' && !IsDigit(s[0], b)))
    ensures UnsignedOf(s, b) == 0 && SignedOf(s, b) == 0 && EndOf(s, b) == 0
  {
    assert SkipSpace(s, 0) == 0;
    assert Run(s, b, 0) == [];
  }

  // ---- what was printed reads back ----

  // Prefix and digits, up to the blanks: read in their own base they give the magnitude; with a prefix,
  // also when the base is left open.
  lemma InnerReads(base: nat, f: Flags, digits: string, tail: string, b: nat)
    requires 2 <= base <= 36 && Digits(digits, base) && Stops(tail)
    requires b == base || (b == 0 && f.prefix && (base == 8 || base == 16))
    ensures var s, v := PrefixOf(base, f) + digits + tail, Val(digits, base);
      && Starts(s) && Denoted(s, b) == v
      && UnsignedOf(s, b) == (if v > ULONG_MAX then ULONG_MAX else v)
      && SignedOf(s, b) == (if v > LONG_MAX then LONG_MAX else v)
  {
    hide Val, Run, ScanOf, UnsignedOf, SignedOf, Denoted;
    assert IsDigit(digits[0], base);
    Plain(digits, tail, base);
    if f.prefix && base == 16 {
      assert PrefixOf(base, f) == ['0', 'x'];
      HexPrefix(digits, tail, 'x', b);
    } else if f.prefix && base == 8 {
      assert PrefixOf(base, f) == "0" && IsDigit('0', 8);
      if b == 0 {
        OctalPrefix(digits, tail);
      } else {
        Plain("0" + digits, tail, 8);
        ZeroFirst(digits, 8);
      }
    } else {
      assert "" + digits + tail == digits + tail;
    }
  }

  // The text of a signed number reads back as the number, whatever the width, the precision and the flags.
  lemma SignedText(num: i32, base: nat, size: int, precision: int, f: Flags, b: nat)
    requires 2 <= base <= 36 && f.sign
    requires b == base || (b == 0 && f.prefix && (base == 8 || base == 16))
    ensures SignedOf(Text(num, base, size, precision, f), b) == num
  {
    hide Val, Run, ScanOf, SignedOf, UnsignedOf, Denoted, Text, Body, Digits, Starts, PrefixOf;
    var k, digits, tail := TextParts(num, base, size, precision, f);
    var s := PrefixOf(base, f) + digits + tail;
    InnerReads(base, f, digits, tail, b);
    LeadingBlanks(k, SignOf(num, f) + s, b);
    assert Repeat(' ', k) + SignOf(num, f) + s == Repeat(' ', k) + (SignOf(num, f) + s);
    if num < 0 { MinusSign(s, b); }
    else if f.plus { PlusSign(s, b); }
    else if f.space { LeadingBlank(' ', s, b); }
    else { assert "" + s == s; }
  }

  // So does that of an unsigned one.
  lemma UnsignedText(num: i32, base: nat, size: int, precision: int, f: Flags, b: nat)
    requires 2 <= base <= 36 && !f.sign
    requires b == base || (b == 0 && f.prefix && (base == 8 || base == 16))
    ensures UnsignedOf(Text(num, base, size, precision, f), b) == num % 0x1_0000_0000
  {
    hide Val, Run, ScanOf, SignedOf, UnsignedOf, Denoted, Text, Body, Digits, Starts, PrefixOf;
    var k, digits, tail := TextParts(num, base, size, precision, f);
    var s := PrefixOf(base, f) + digits + tail;
    InnerReads(base, f, digits, tail, b);
    LeadingBlanks(k, s, b);
    assert Repeat(' ', k) + SignOf(num, f) + s == Repeat(' ', k) + s;
  }

  lemma TextParts(num: i32, base: nat, size: int, precision: int, f: Flags)
    returns (k: nat, digits: string, tail: string)
    requires 2 <= base <= 36
    ensures Text(num, base, size, precision, f) == Repeat(' ', k) + SignOf(num, f) + (PrefixOf(base, f) + digits + tail)
    ensures Digits(digits, base) && Val(digits, base) == Magnitude(num, f) && Stops(tail)
  {
    hide Text, Val, SignOf, PrefixOf, Magnitude, Body;
    TextDenotes(num, base, size, precision, f);
    var free := Free(num, base, size, precision, f);
    k := if f.zeropad || f.left then 0 else free;
    digits := Repeat('0', if f.zeropad && !f.left then free else 0) + Body(num, base, precision, f);
    tail := Repeat(' ', if f.left then free else 0);
    Regroup(Repeat(' ', k), SignOf(num, f), PrefixOf(base, f), digits, tail);
  }

  lemma Regroup(a: string, b: string, c: string, d: string, e: string)
    ensures a + b + c + d + e == a + b + (c + d + e)
  {}

  // The first character behind the blanks is a plus or minus sign exactly when it is asked for and fits.
  lemma FirstMark(num: i32, base: nat, size: int, precision: int, f: Flags, i: nat)
    requires 2 <= base <= 36 && i < |Text(num, base, size, precision, f)|
    requires Text(num, base, size, precision, f)[i] != ' '
    requires forall j: nat | j < i :: Text(num, base, size, precision, f)[j] == ' '
    ensures Text(num, base, size, precision, f)[i] == '-' <==> f.sign && num < 0
    ensures Text(num, base, size, precision, f)[i] == '+' <==> f.sign && num >= 0 && f.plus
    ensures f.sign && num >= 0 && !f.plus && f.space ==> i > 0
  {
    hide Text, Val, Magnitude, Body;
    var k, digits, tail := TextParts(num, base, size, precision, f);
    var t, rest := Text(num, base, size, precision, f), PrefixOf(base, f) + digits + tail;
    assert IsDigit(digits[0], base);
    assert rest[0] == if PrefixOf(base, f) == [] then digits[0] else '0';
    var sign := SignOf(num, f);
    var first := if sign == "" || sign == " " then k + |sign| else k;
    assert t[first] == if first == k + |sign| then rest[0] else sign[0];
    assert forall j: nat | j < first :: t[j] == ' ';
  }

  // The width is a minimum; blanks fill up on the side asked for, or zeros do.
  lemma Justified(num: i32, base: nat, size: int, precision: int, f: Flags)
    requires 2 <= base <= 36
    ensures var t := Text(num, base, size, precision, f);
      && |t| >= size && t != []
      && (!f.left ==> t[|t| - 1] != ' ')
      && (!f.sign && (f.left || f.zeropad) ==> t[0] != ' ')
  {
    hide Text, Body, Val, Magnitude, Num, PrefixOf, Free;
    TextLength(num, base, size, precision, f);
    TextDenotes(num, base, size, precision, f);
    var free := Free(num, base, size, precision, f);
    var digits := Repeat('0', if f.zeropad && !f.left then free else 0) + Body(num, base, precision, f);
    assert IsDigit(digits[0], base) && IsDigit(digits[|digits| - 1], base);
    var pre := PrefixOf(base, f);
    assert pre != [] ==> pre[0] == '0' by { PrefixStarts(base, f); }
    assert Repeat(' ', 0) == [];
    Pieces(Repeat(' ', if f.zeropad || f.left then 0 else free), SignOf(num, f), pre, digits,
      Repeat(' ', if f.left then free else 0));
  }

  lemma PrefixStarts(base: nat, f: Flags)
    ensures PrefixOf(base, f) != [] ==> PrefixOf(base, f)[0] == '0'
  {}

  lemma Pieces(a: string, b: string, c: string, d: string, e: string)
    requires d != []
    ensures var t := a + b + c + d + e;
      && t != [] && (e == [] ==> t[|t| - 1] == d[|d| - 1])
      && (a == [] && b == [] ==> t[0] == if c != [] then c[0] else d[0])
  {}

  // On the left, padding with zeros is off.
  lemma NoZerosBehind(num: i32, base: nat, size: int, precision: int, f: Flags)
    requires 2 <= base <= 36 && f.left
    ensures Text(num, base, size, precision, f) == Text(num, base, size, precision, f.(zeropad := !f.zeropad))
  {
    hide Num, Val, Repeat, SignOf, PrefixOf, Magnitude, Body;
    SamePieces(num, base, precision, f, f.(zeropad := !f.zeropad));
  }

  lemma SamePieces(num: i32, base: nat, precision: int, f: Flags, g: Flags)
    requires 2 <= base <= 36 && g == f.(zeropad := g.zeropad)
    ensures SignOf(num, g) == SignOf(num, f) && PrefixOf(base, g) == PrefixOf(base, f)
    ensures Body(num, base, precision, g) == Body(num, base, precision, f)
  {
    hide Num, Repeat;
  }

  // Digits above 9 are capital letters exactly when that is asked for.
  lemma Letters(v: nat, b: nat, upper: bool, k: nat)
    requires 2 <= b <= 36 && k < |Num(v, b, upper)|
    ensures var c := Num(v, b, upper)[k];
      '0' <= c <= '9' || (if upper then 'A' <= c <= 'Z' else 'a' <= c <= 'z')
    decreases v
  {
    hide Quo, Rem;
    var q := Quo(v, b);
    if q != 0 && k < |Num(q, b, upper)| { Letters(q, b, upper, k); }
  }

  // A few numbers, digit by digit.
  lemma SomeDigits()
    ensures Num(1907, 10, false) == "1907" && Num(0xbeef, 16, false) == "beef" && Num(0xBEEF, 16, true) == "BEEF"
  {
    assert Num(1, 10, false) == "1" && Num(19, 10, false) == "19" && Num(190, 10, false) == "190";
    forall upper: bool
      ensures Num(0xb, 16, upper) == [if upper then 'B' else 'b']
      ensures Num(0xbe, 16, upper) == (if upper then "BE" else "be")
      ensures Num(0xbee, 16, upper) == (if upper then "BEE" else "bee")
    {}
  }
}

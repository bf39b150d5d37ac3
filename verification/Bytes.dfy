// Bytes, 32-bit words and single bits, written out arithmetically.
module Bytes {

  type byte = b: int | 0 <= b < 0x100
  type u32 = w: int | 0 <= w < 0x1_0000_0000

  // ---- single bits of a word: w & (1 << j), w | (1 << j), w & ~(1 << j) ----

  predicate Bit(w: nat, j: nat) {
    if j == 0 then w % 2 == 1 else Bit(w / 2, j - 1)
  }

  function SetBit(w: nat, j: nat): nat {
    if j == 0 then w / 2 * 2 + 1 else 2 * SetBit(w / 2, j - 1) + w % 2
  }

  function ClearBit(w: nat, j: nat): nat {
    if j == 0 then w / 2 * 2 else 2 * ClearBit(w / 2, j - 1) + w % 2
  }

  function Pow2(n: nat): (p: nat)
    ensures p >= 1
  {
    if n == 0 then 1 else 2 * Pow2(n - 1)
  }

  lemma {:induction false} SetBitAt(w: nat, j: nat, k: nat)
    ensures Bit(SetBit(w, j), k) <==> k == j || Bit(w, k)
  {
    if j > 0 && k > 0 { SetBitAt(w / 2, j - 1, k - 1); }
  }

  lemma {:induction false} ClearBitAt(w: nat, j: nat, k: nat)
    ensures Bit(ClearBit(w, j), k) <==> k != j && Bit(w, k)
  {
    if j > 0 && k > 0 { ClearBitAt(w / 2, j - 1, k - 1); }
  }

  lemma {:induction false} BitUpdateFits(w: nat, j: nat, n: nat)
    requires j < n && w < Pow2(n)
    ensures SetBit(w, j) < Pow2(n) && ClearBit(w, j) < Pow2(n)
  {
    if j > 0 { BitUpdateFits(w / 2, j - 1, n - 1); }
  }

  lemma {:induction false} LargestWordBit(w: nat, n: nat, j: nat)
    requires w == Pow2(n) - 1 && j < n
    ensures Bit(w, j)
  {
    if j > 0 { LargestWordBit(w / 2, n - 1, j - 1); }
  }

  // A word of n bits that is not the largest one has a clear bit.
  lemma {:induction false} ClearBitExists(w: nat, n: nat) returns (j: nat)
    requires w < Pow2(n) - 1
    ensures j < n && !Bit(w, j)
  {
    if w % 2 == 0 {
      j := 0;
    } else {
      j := ClearBitExists(w / 2, n - 1);
      j := j + 1;
    }
  }

  lemma {:induction false} NoBits(j: nat)
    ensures !Bit(0, j)
  {
    if j > 0 { NoBits(j - 1); }
  }

  lemma Pow2Values()
    ensures Pow2(8) == 0x100 && Pow2(32) == 0x1_0000_0000
  {
    assert Pow2(4) == 16 by { assert Pow2(2) == 4; }
    assert Pow2(8) == 16 * Pow2(4) by { assert Pow2(6) == 4 * Pow2(4); }
    assert Pow2(12) == 16 * Pow2(8) by { assert Pow2(10) == 4 * Pow2(8); }
    assert Pow2(16) == 16 * Pow2(12) by { assert Pow2(14) == 4 * Pow2(12); }
    assert Pow2(20) == 16 * Pow2(16) by { assert Pow2(18) == 4 * Pow2(16); }
    assert Pow2(24) == 16 * Pow2(20) by { assert Pow2(22) == 4 * Pow2(20); }
    assert Pow2(28) == 16 * Pow2(24) by { assert Pow2(26) == 4 * Pow2(24); }
    assert Pow2(32) == 16 * Pow2(28) by { assert Pow2(30) == 4 * Pow2(28); }
  }

  // ---- little-endian words in memory ----

  function Enc32(v: u32): (s: seq<byte>)
    ensures |s| == 4
  {
    [v % 0x100, v / 0x100 % 0x100, v / 0x1_0000 % 0x100, v / 0x100_0000]
  }

  function Dec32(s: seq<byte>): u32
    requires |s| == 4
  {
    s[0] as int + 0x100 * (s[1] as int) + 0x1_0000 * (s[2] as int) + 0x100_0000 * (s[3] as int)
  }

  lemma DecEnc32(v: u32)
    ensures Dec32(Enc32(v)) == v
  {
    assert v / 0x1_0000 == v / 0x100 / 0x100;
    assert v / 0x100_0000 == v / 0x1_0000 / 0x100;
  }

  function Zeros(n: nat): (s: seq<byte>)
    ensures |s| == n
  {
    seq(n, _ => 0)
  }

  // s with the bytes from off onwards overwritten by src
  function Splice(s: seq<byte>, off: nat, src: seq<byte>): (r: seq<byte>)
    requires off + |src| <= |s|
    ensures |r| == |s|
  {
    s[..off] + src + s[off + |src|..]
  }

  // The i-th word of a byte string.
  function Word(s: seq<byte>, i: nat): u32
    requires 4 * i + 4 <= |s|
  {
    Dec32(s[4 * i..4 * i + 4])
  }

  lemma WordSplice(s: seq<byte>, i: nat, v: u32, k: nat)
    requires 4 * i + 4 <= |s| && 4 * k + 4 <= |s|
    ensures Word(Splice(s, 4 * i, Enc32(v)), k) == if k == i then v else Word(s, k)
  {
    var r := Splice(s, 4 * i, Enc32(v));
    if k == i {
      assert r[4 * i..4 * i + 4] == Enc32(v);
      DecEnc32(v);
    } else {
      assert r[4 * k..4 * k + 4] == s[4 * k..4 * k + 4];
    }
  }

  lemma WordZeros(n: nat, i: nat)
    requires 4 * i + 4 <= n
    ensures Word(Zeros(n), i) == 0
  {
    assert Zeros(n)[4 * i..4 * i + 4] == [0, 0, 0, 0];
  }
}

// The bitmap seen byte by byte: bit n % 8 of byte n / 8 is the bit the kernel reads from a word.
module BitBytes {
  import opened Bytes
  import opened DiskCache
  import opened Layout

  lemma {:induction false} BitLow(x: nat, rest: nat, k: nat, r: nat)
    requires r < k
    ensures Bit(x + Pow2(k) * rest, r) == Bit(x, r)
  {
    var y := Pow2(k - 1) * rest;
    assert Pow2(k) * rest == 2 * y;
    assert (x + 2 * y) / 2 == x / 2 + y && (x + 2 * y) % 2 == x % 2;
    if r > 0 { BitLow(x / 2, rest, k - 1, r - 1); }
  }

  lemma Halve4(w: nat, j: nat)
    ensures Bit(w, 4 + j) == Bit(w / 16, j)
  {
    assert Bit(w, 4 + j) == Bit(w / 2, 3 + j) == Bit(w / 2 / 2, 2 + j) == Bit(w / 2 / 2 / 2, 1 + j)
      == Bit(w / 2 / 2 / 2 / 2, j);
    assert w / 2 / 2 / 2 / 2 == w / 16;
  }

  lemma Halve8(w: nat, j: nat)
    ensures Bit(w, 8 + j) == Bit(w / 0x100, j)
  {
    Halve4(w, 4 + j);
    Halve4(w / 16, j);
    assert w / 16 / 16 == w / 0x100;
  }

  lemma WordBit(s: seq<byte>, q: nat, r: nat)
    requires |s| == 4 && q < 4 && r < 8
    ensures Bit(Dec32(s), 8 * q + r) == Bit(s[q], r)
  {
    var w := Dec32(s);
    var w1 := s[1] as int + 0x100 * (s[2] as int) + 0x1_0000 * (s[3] as int);
    var w2 := s[2] as int + 0x100 * (s[3] as int);
    assert w == s[0] as int + 0x100 * w1 && w / 0x100 == w1;
    assert w1 == s[1] as int + 0x100 * w2 && w1 / 0x100 == w2 && w2 / 0x100 == s[3];
    Pow2Values();
    if q == 0 {
      BitLow(s[0], w1, 8, r);
    } else {
      Halve8(w, 8 * (q - 1) + r);
      if q == 1 {
        BitLow(s[1], w2, 8, r);
      } else {
        Halve8(w1, 8 * (q - 2) + r);
        if q == 2 {
          BitLow(s[2], s[3], 8, r);
        } else {
          Halve8(w2, r);
        }
      }
    }
  }

  lemma BitOfByte(bitmap: Block, c: nat)
    requires c < BLK_NUM
    ensures BitAt(bitmap, c) == Bit(bitmap[c / 8], c % 8)
  {
    var i, q, r := c / 32, c % 32 / 8, c % 8;
    assert c % 32 == 8 * q + r && c / 8 == 4 * i + q;
    WordBit(bitmap[4 * i..4 * i + 4], q, r);
  }

  // u8buf[n / 8] |= 1 << (n % 8)
  function Marked(bitmap: Block, n: nat): (r: Block)
    requires n < BLK_NUM
  {
    Pow2Values();
    BitUpdateFits(bitmap[n / 8], n % 8, 8);
    bitmap[n / 8 := SetBit(bitmap[n / 8], n % 8)]
  }

  lemma MarkedBit(bitmap: Block, n: nat, c: nat)
    requires n < BLK_NUM && c < BLK_NUM
    ensures BitAt(Marked(bitmap, n), c) == (c == n || BitAt(bitmap, c))
  {
    BitOfByte(bitmap, c);
    BitOfByte(Marked(bitmap, n), c);
    if c / 8 == n / 8 { SetBitAt(bitmap[n / 8], n % 8, c % 8); }
  }

  lemma ViewMarked(d: Disk, n: nat)
    requires n < BLK_NUM
    ensures ViewOf(d[BITMAP_BLK := Marked(d[BITMAP_BLK], n)]) == ViewOf(d).(bits := ViewOf(d).bits[n := true])
  {
    hide Marked, BitAt;
    var d' := d[BITMAP_BLK := Marked(d[BITMAP_BLK], n)];
    forall c: nat | c < BLK_NUM ensures BitAt(d'[BITMAP_BLK], c) == (c == n || BitAt(d[BITMAP_BLK], c)) {
      MarkedBit(d[BITMAP_BLK], n, c);
    }
    forall no: nat | no < INUM ensures DinodeAt(d', no) == DinodeAt(d, no) {}
    assert ViewOf(d').bits == ViewOf(d).bits[n := true];
    assert ViewOf(d').dis == ViewOf(d).dis;
    assert ViewOf(d').data == ViewOf(d).data;
  }
}

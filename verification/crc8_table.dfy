/**
 The 256-entry table of `inc/uart.h`, and the proof that it is multiplication by x^8 modulo
 x^8 + x^5 + x^4 + 1 over GF(2).
 */
module Crc8Table {

  // The table row by row, as it is laid out in inc/uart.h.
  const TABLE_ROWS: seq<seq<bv8>> := [
    [0x00, 0x31, 0x62, 0x53, 0xC4, 0xF5, 0xA6, 0x97],
    [0xB9, 0x88, 0xDB, 0xEA, 0x7D, 0x4C, 0x1F, 0x2E],
    [0x43, 0x72, 0x21, 0x10, 0x87, 0xB6, 0xE5, 0xD4],
    [0xFA, 0xCB, 0x98, 0xA9, 0x3E, 0x0F, 0x5C, 0x6D],
    [0x86, 0xB7, 0xE4, 0xD5, 0x42, 0x73, 0x20, 0x11],
    [0x3F, 0x0E, 0x5D, 0x6C, 0xFB, 0xCA, 0x99, 0xA8],
    [0xC5, 0xF4, 0xA7, 0x96, 0x01, 0x30, 0x63, 0x52],
    [0x7C, 0x4D, 0x1E, 0x2F, 0xB8, 0x89, 0xDA, 0xEB],
    [0x3D, 0x0C, 0x5F, 0x6E, 0xF9, 0xC8, 0x9B, 0xAA],
    [0x84, 0xB5, 0xE6, 0xD7, 0x40, 0x71, 0x22, 0x13],
    [0x7E, 0x4F, 0x1C, 0x2D, 0xBA, 0x8B, 0xD8, 0xE9],
    [0xC7, 0xF6, 0xA5, 0x94, 0x03, 0x32, 0x61, 0x50],
    [0xBB, 0x8A, 0xD9, 0xE8, 0x7F, 0x4E, 0x1D, 0x2C],
    [0x02, 0x33, 0x60, 0x51, 0xC6, 0xF7, 0xA4, 0x95],
    [0xF8, 0xC9, 0x9A, 0xAB, 0x3C, 0x0D, 0x5E, 0x6F],
    [0x41, 0x70, 0x23, 0x12, 0x85, 0xB4, 0xE7, 0xD6],
    [0x7A, 0x4B, 0x18, 0x29, 0xBE, 0x8F, 0xDC, 0xED],
    [0xC3, 0xF2, 0xA1, 0x90, 0x07, 0x36, 0x65, 0x54],
    [0x39, 0x08, 0x5B, 0x6A, 0xFD, 0xCC, 0x9F, 0xAE],
    [0x80, 0xB1, 0xE2, 0xD3, 0x44, 0x75, 0x26, 0x17],
    [0xFC, 0xCD, 0x9E, 0xAF, 0x38, 0x09, 0x5A, 0x6B],
    [0x45, 0x74, 0x27, 0x16, 0x81, 0xB0, 0xE3, 0xD2],
    [0xBF, 0x8E, 0xDD, 0xEC, 0x7B, 0x4A, 0x19, 0x28],
    [0x06, 0x37, 0x64, 0x55, 0xC2, 0xF3, 0xA0, 0x91],
    [0x47, 0x76, 0x25, 0x14, 0x83, 0xB2, 0xE1, 0xD0],
    [0xFE, 0xCF, 0x9C, 0xAD, 0x3A, 0x0B, 0x58, 0x69],
    [0x04, 0x35, 0x66, 0x57, 0xC0, 0xF1, 0xA2, 0x93],
    [0xBD, 0x8C, 0xDF, 0xEE, 0x79, 0x48, 0x1B, 0x2A],
    [0xC1, 0xF0, 0xA3, 0x92, 0x05, 0x34, 0x67, 0x56],
    [0x78, 0x49, 0x1A, 0x2B, 0xBC, 0x8D, 0xDE, 0xEF],
    [0x82, 0xB3, 0xE0, 0xD1, 0x46, 0x77, 0x24, 0x15],
    [0x3B, 0x0A, 0x59, 0x68, 0xFF, 0xCE, 0x9D, 0xAC]
  ]

  lemma TableShape()
    ensures |TABLE_ROWS| == 32
    ensures forall r: nat :: r < 32 ==> |TABLE_ROWS[r]| == 8
  {
  }

  // Entry `i` of the flat array.
  function Entry(i: nat): bv8
    requires i < 256
  {
    TableShape();
    TABLE_ROWS[i / 8][i % 8]
  }

  // Shift left and reduce; 0x31 is the polynomial without its leading term.
  function ShiftReduce(c: bv8): bv8 {
    if c & 0x80 != 0 then (c << 1) ^ 0x31 else c << 1
  }

  function ShiftReduce8(c: bv8): bv8 {
    ShiftReduce(ShiftReduce(ShiftReduce(ShiftReduce(ShiftReduce(ShiftReduce(ShiftReduce(ShiftReduce(c))))))))
  }

  lemma EntriesOfRows0To7(b: bv8)
    requires 0 <= b >> 3 < 8
    ensures Entry(b as nat) == ShiftReduce8(b)
  {
    TableShape();
    assert (b as nat) / 8 == (b >> 3) as nat && (b as nat) % 8 == (b & 7) as nat;
  }

  lemma EntriesOfRows8To15(b: bv8)
    requires 8 <= b >> 3 < 16
    ensures Entry(b as nat) == ShiftReduce8(b)
  {
    TableShape();
    assert (b as nat) / 8 == (b >> 3) as nat && (b as nat) % 8 == (b & 7) as nat;
  }

  lemma EntriesOfRows16To23(b: bv8)
    requires 16 <= b >> 3 < 24
    ensures Entry(b as nat) == ShiftReduce8(b)
  {
    TableShape();
    assert (b as nat) / 8 == (b >> 3) as nat && (b as nat) % 8 == (b & 7) as nat;
  }

  lemma EntriesOfRows24To31(b: bv8)
    requires 24 <= b >> 3 < 32
    ensures Entry(b as nat) == ShiftReduce8(b)
  {
    TableShape();
    assert (b as nat) / 8 == (b >> 3) as nat && (b as nat) % 8 == (b & 7) as nat;
  }

  lemma EntryIsShiftReduce8(b: bv8)
    ensures Entry(b as nat) == ShiftReduce8(b)
  {
    if b >> 3 < 8 {
      EntriesOfRows0To7(b);
    } else if b >> 3 < 16 {
      EntriesOfRows8To15(b);
    } else if b >> 3 < 24 {
      EntriesOfRows16To23(b);
    } else {
      EntriesOfRows24To31(b);
    }
  }

  // ---- The order of x is 127 --------------------------------------------------------------------

  // Product with x^n.
  function Power(c: bv8, n: nat): bv8
    decreases n, c
  {
    if n == 0 then c else Power(ShiftReduce(c), n - 1)
  }

  lemma {:induction false} PowerAdd(c: bv8, m: nat, n: nat)
    ensures Power(c, m + n) == Power(Power(c, m), n)
    decreases m
  {
    if m > 0 {
      PowerAdd(ShiftReduce(c), m - 1, n);
    }
  }

  lemma PowerTwo(c: bv8, n: nat)
    ensures Power(c, n + 2) == Power(ShiftReduce(ShiftReduce(c)), n)
  {
  }

  lemma PowerEight(c: bv8)
    ensures Power(c, 8) == ShiftReduce8(c)
  {
    var c2 := ShiftReduce(ShiftReduce(c));
    var c4 := ShiftReduce(ShiftReduce(c2));
    var c6 := ShiftReduce(ShiftReduce(c4));
    PowerTwo(c, 6);
    PowerTwo(c2, 4);
    PowerTwo(c4, 2);
    PowerTwo(c6, 0);
  }

  /** Each of the 256 entries is its own index times x^8. */
  lemma EntryIsPower(b: bv8)
    ensures Entry(b as nat) == Power(b, 8)
  {
    EntryIsShiftReduce8(b);
    PowerEight(b);
  }

  lemma Extend(n: nat, m: nat, c: bv8, d: bv8)
    requires Power(0x80, n) == c && Power(c, m) == d
    ensures Power(0x80, n + m) == d
  {
    PowerAdd(0x80, n, m);
  }

  // x^7 times the powers of x^8, up to 1.
  lemma UpTo120()
    ensures Power(0x80, 120) == 0x01
  {
    Extend(0, 8, 0x80, 0x7A);
    Extend(8, 8, 0x7A, 0x23);
    Extend(16, 8, 0x23, 0xD5);
    Extend(24, 8, 0xD5, 0xF1);
    Extend(32, 8, 0xF1, 0xB3);
    Extend(40, 8, 0xB3, 0xEC);
    Extend(48, 8, 0xEC, 0xBC);
    Extend(56, 8, 0xBC, 0xC2);
    Extend(64, 8, 0xC2, 0x25);
    Extend(72, 8, 0x25, 0x73);
    Extend(80, 8, 0x73, 0xAB);
    Extend(88, 8, 0xAB, 0x16);
    Extend(96, 8, 0x16, 0xE5);
    Extend(104, 8, 0xE5, 0x34);
    Extend(112, 8, 0x34, 0x01);
  }

  /** x^127 = 1 modulo the polynomial. */
  lemma PowerOf127()
    ensures Power(0x80, 127) == 0x80
  {
    UpTo120();
    Extend(120, 7, 0x01, 0x80);
  }

  lemma {:induction false} PowerMultiple(c: bv8, n: nat, k: nat)
    requires Power(c, n) == c
    ensures Power(c, n * k) == c
    decreases k
  {
    if k > 0 {
      PowerMultiple(c, n, k - 1);
      PowerAdd(c, n, n * (k - 1));
      assert n + n * (k - 1) == n * k;
    }
  }

  lemma PowerModulo(c: bv8, n: nat, d: nat)
    requires 0 < d && Power(c, d) == c
    ensures Power(c, n) == Power(c, n % d)
  {
    PowerMultiple(c, d, n / d);
    PowerAdd(c, d * (n / d), n % d);
  }

  lemma Prime127(d: nat)
    requires 1 < d < 127
    ensures 127 % d != 0
  {
    var q := 127 / d;
    assert 127 == q * d + 127 % d;
    if d > 11 {
      assert q < 11 by {
        assert q * d <= 127;
      }
    }
  }

  // No smaller positive power is 1: Euclid's algorithm on d and the prime 127 would end at x = 1.
  lemma {:induction false} NoShorterPeriod(d: nat)
    requires 0 < d < 127
    ensures Power(0x80, d) != 0x80
    decreases d
  {
    if d == 1 {
      assert Power(0x80, 1) == 0x31;
    } else {
      PowerOf127();
      Prime127(d);
      NoShorterPeriod(127 % d);
      if Power(0x80, d) == 0x80 {
        PowerModulo(0x80, 127, d);
      }
    }
  }

  // Also from x^7 on, the leading bit, where a message bit enters.
  lemma OrderFromTop(n: nat)
    ensures Power(0x80, n) == 0x80 <==> n % 127 == 0
  {
    PowerOf127();
    PowerModulo(0x80, n, 127);
    if n % 127 != 0 {
      NoShorterPeriod(n % 127);
    }
  }

  /** x^n = 1 modulo the polynomial exactly when 127 divides n. */
  lemma OrderOfX(n: nat)
    ensures Power(0x01, n) == 0x01 <==> n % 127 == 0
  {
    OrderFromTop(n);
    PowersToAndFrom();
    if Power(0x01, n) == 0x01 {
      PowerAdd(0x01, 7, n);
      PowerAdd(0x01, n, 7);
    }
    if Power(0x80, n) == 0x80 {
      PowerAdd(0x80, 120, n);
      PowerAdd(0x80, n, 120);
    }
    hide Power;
  }

  // 1 times x^7, and x^7 times x^120.
  lemma PowersToAndFrom()
    ensures Power(0x01, 7) == 0x80 && Power(0x80, 120) == 0x01
  {
    UpTo120();
    PowerTwo(0x01, 5);
    PowerTwo(0x04, 3);
    PowerTwo(0x10, 1);
  }
}

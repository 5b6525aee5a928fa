/**
 The check byte of the serial protocol (`inc/uart.h`, `src/uart.c`).

 The code walks a 256-entry table.  Two references say what that computes: a bit-serial shift
 register (`BitCrc`) and schoolbook polynomial division over GF(2) (`Remainder`).

 Bit positions follow the order in which the CRC consumes bits: byte by byte, most significant first.
 */
module Crc8 {
  import opened BitStrings
  import Crc8Table

  // Initial value of the running CRC.
  const INIT: bv8 := 0xFF

  // ---- The shift register ---------------------------------------------------------------------

  // The eight bits of the register, most significant first.
  type Register = s: seq<bool> | |s| == 8 witness Zeros(8)

  // x^8 + x^5 + x^4 + 1, highest coefficient first.
  const DIVISOR: seq<bool> := [true, false, false, true, true, false, false, false, true]

  // Product with x modulo the divisor: the bit shifted out is replaced by the divisor's other terms.
  function MulX(c: Register): (r: Register)
    ensures forall k :: 0 <= k < 8 ==> r[k] == ((k < 7 && c[k + 1]) != (c[0] && DIVISOR[k + 1]))
  {
    seq(8, k requires 0 <= k < 8 => (k < 7 && c[k + 1]) != (c[0] && DIVISOR[k + 1]))
  }

  // Product with x^n.
  function MulXn(c: Register, n: nat): Register
    decreases n, c
  {
    if n == 0 then c else MulXn(MulX(c), n - 1)
  }

  // One bit enters the register at the top, then the register is multiplied by x.
  function Feed(c: Register, bit: bool): Register {
    MulX(c[0 := c[0] != bit])
  }

  function BitCrc(c: Register, bits: seq<bool>): Register
    decreases |bits|
  {
    if bits == [] then c else BitCrc(Feed(c, bits[0]), bits[1..])
  }

  // The check value of a message, for an arbitrary initial value.
  function Crc(init: bv8, m: seq<bv8>): Register {
    BitCrc(BitsOf(init), Bits(m))
  }

  // The running value of the table-driven loop.
  function TableCrc(init: bv8, m: seq<bv8>): bv8
    decreases |m|
  {
    if m == [] then init else TableCrc(Crc8Table.Entry((init ^ m[0]) as nat), m[1..])
  }

  lemma {:induction false} BitCrcAppend(c: Register, a: seq<bool>, b: seq<bool>)
    ensures BitCrc(c, a + b) == BitCrc(BitCrc(c, a), b)
    decreases |a|
  {
    if a == [] {
      assert a + b == b;
    } else {
      assert (a + b)[1..] == a[1..] + b;
      BitCrcAppend(Feed(c, a[0]), a[1..], b);
    }
  }

  // ---- The table feeds eight bits at a time -----------------------------------------------------

  lemma MulXLiteral(c: Register)
    ensures MulX(c) == [c[1], c[2], c[3] != c[0], c[4] != c[0], c[5], c[6], c[7], c[0]]
  {
  }

  lemma HasShiftReduce(c: bv8)
    ensures var d := Crc8Table.ShiftReduce(c);
            && Has(d, 0x80) == Has(c, 0x40) && Has(d, 0x40) == Has(c, 0x20)
            && Has(d, 0x20) == (Has(c, 0x10) != Has(c, 0x80)) && Has(d, 0x10) == (Has(c, 0x08) != Has(c, 0x80))
            && Has(d, 0x08) == Has(c, 0x04) && Has(d, 0x04) == Has(c, 0x02)
            && Has(d, 0x02) == Has(c, 0x01) && Has(d, 0x01) == Has(c, 0x80)
  {
  }

  lemma ShiftReduceIsMulX(c: bv8)
    ensures BitsOf(Crc8Table.ShiftReduce(c)) == MulX(BitsOf(c))
  {
    HasShiftReduce(c);
    MulXLiteral(BitsOf(c));
  }

  lemma {:induction false} PowerIsMulXn(c: bv8, n: nat)
    ensures BitsOf(Crc8Table.Power(c, n)) == MulXn(BitsOf(c), n)
    decreases n
  {
    if n > 0 {
      ShiftReduceIsMulX(c);
      PowerIsMulXn(Crc8Table.ShiftReduce(c), n - 1);
    }
  }

  lemma EntryIsMulX8(b: bv8)
    ensures BitsOf(Crc8Table.Entry(b as nat)) == MulXn(BitsOf(b), 8)
  {
    Crc8Table.EntryIsPower(b);
    PowerIsMulXn(b, 8);
  }

  lemma FeedStep(s: Register, w: Register)
    ensures MulX(Xor(s, w)) == Xor(Feed(s, w[0]), w[1..] + [false])
  {
  }

  // Feeding the leading n bits of w is adding w and n products with x, up to the bits still to come.
  lemma {:induction false} FeedPrefix(s: Register, w: Register, n: nat)
    requires n <= 8
    ensures MulXn(Xor(s, w), n) == Xor(BitCrc(s, w[..n]), w[n..] + Zeros(n))
    decreases n
  {
    if n == 0 {
      assert w[0..] + Zeros(0) == w;
    } else {
      var rest := w[1..] + [false];
      FeedStep(s, w);
      FeedPrefix(Feed(s, w[0]), rest, n - 1);
      assert w[..n][1..] == rest[..n - 1];
      assert rest[n - 1..] + Zeros(n - 1) == w[n..] + Zeros(n);
    }
  }

  lemma FeedByte(c: Register, w: Register)
    ensures BitCrc(c, w) == MulXn(Xor(c, w), 8)
  {
    FeedPrefix(c, w, 8);
    assert w[..8] == w;
    assert BitCrc(c, w) == Xor(BitCrc(c, w), w[8..] + Zeros(8));
  }

  // `e` is the table entry that one turn of the loop stores.
  lemma CrcStep(c: bv8, m: seq<bv8>, e: bv8)
    requires m != [] && BitsOf(e) == MulXn(BitsOf(c ^ m[0]), 8)
    ensures Crc(c, m) == Crc(e, m[1..])
  {
    BitsOfXor(c, m[0]);
    FeedByte(BitsOf(c), BitsOf(m[0]));
    BitCrcAppend(BitsOf(c), BitsOf(m[0]), Bits(m[1..]));
  }

  lemma CrcStepAt(c: bv8, m: seq<bv8>, k: nat, e: bv8)
    requires k < |m| && BitsOf(e) == MulXn(BitsOf(c ^ m[k]), 8)
    ensures Crc(c, m[k..]) == Crc(e, m[k + 1..])
  {
    var rest := m[k..];
    assert rest[1..] == m[k + 1..];
    CrcStep(c, rest, e);
  }

  /** The table-driven loop is the bit-serial register, for every message and initial value. */
  lemma {:induction false} TableCrcIsBitSerial(init: bv8, m: seq<bv8>)
    ensures BitsOf(TableCrc(init, m)) == Crc(init, m)
    decreases |m|
  {
    if m != [] {
      var e := Crc8Table.Entry((init ^ m[0]) as nat);
      EntryIsMulX8(init ^ m[0]);
      CrcStep(init, m, e);
      TableCrcIsBitSerial(e, m[1..]);
    }
  }

  // `Crc8Table[b]`
  method Lookup(b: bv8) returns (e: bv8)
    ensures BitsOf(e) == MulXn(BitsOf(b), 8)
  {
    e := Crc8Table.Entry(b as nat);
    EntryIsMulX8(b);
  }

  /** `unsigned char Crc8(unsigned char *pcBlock, unsigned char size)`. */
  method ComputeCrc8(block: array<bv8>, size: nat) returns (crc: bv8)
    requires size <= block.Length && size < 256
    ensures BitsOf(crc) == Crc(0xFF, block[..size])
  {
    ghost var m := block[..size];
    crc := INIT;
    var left, next := size, 0;
    assert m[0..] == m;
    while left > 0
      invariant next + left == size
      invariant Crc(crc, m[next..]) == Crc(INIT, m)
    {
      var entry := Lookup(crc ^ block[next]);
      CrcStepAt(crc, m, next, entry);
      crc := entry;
      left, next := left - 1, next + 1;
    }
    assert m[next..] == [];
  }

  // ---- Polynomial division --------------------------------------------------------------------

  // Long division: cancel the leading term with the divisor until fewer than nine terms are left.
  function Remainder(p: seq<bool>): (r: seq<bool>)
    ensures |p| >= 8 ==> |r| == 8
    decreases |p|
  {
    if |p| < 9 then p
    else if p[0] then Remainder(Xor(p[..9], DIVISOR)[1..] + p[9..])
    else Remainder(p[1..])
  }

  // The dividend of a message: its bits times x^8, with the initial value added to the top eight.
  function Dividend(init: Register, bits: seq<bool>): (p: seq<bool>)
    ensures |p| == |bits| + 8
  {
    var shifted := bits + Zeros(8);
    Xor(init, shifted[..8]) + shifted[8..]
  }

  // Feeding one bit to the register is one step of the division.
  lemma FeedDivides(c: Register, bits: seq<bool>)
    requires bits != []
    ensures Remainder(Dividend(c, bits)) == Remainder(Dividend(Feed(c, bits[0]), bits[1..]))
  {
    var p := Dividend(c, bits);
    var next := Dividend(Feed(c, bits[0]), bits[1..]);
    var step := if p[0] then Xor(p[..9], DIVISOR)[1..] + p[9..] else p[1..];
    assert (bits + Zeros(8))[1..] == bits[1..] + Zeros(8);
    assert step == next;
  }

  lemma {:induction false} BitCrcIsRemainder(c: Register, bits: seq<bool>)
    ensures Remainder(Dividend(c, bits)) == BitCrc(c, bits)
    decreases |bits|
  {
    if bits == [] {
      assert Dividend(c, bits) == c;
    } else {
      FeedDivides(c, bits);
      BitCrcIsRemainder(Feed(c, bits[0]), bits[1..]);
    }
  }

  /** The table-driven check byte is the remainder of the message polynomial, times x^8 and with the
      initial value added to its leading bits, divided by x^8 + x^5 + x^4 + 1. */
  lemma TableCrcIsRemainder(init: bv8, m: seq<bv8>)
    ensures BitsOf(TableCrc(init, m)) == Remainder(Dividend(BitsOf(init), Bits(m)))
  {
    TableCrcIsBitSerial(init, m);
    BitCrcIsRemainder(BitsOf(init), Bits(m));
  }
}

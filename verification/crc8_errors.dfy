/**
 Which transmission errors the check byte finds.

 `Check_message_UART` in `src/uart.c` accepts a frame when its last byte is the CRC of the bytes before
 it.  The results below hold for messages of any length and any initial value, then for whole frames.
 */
module Crc8Errors {
  import opened BitStrings
  import opened Crc8
  import Crc8Table

  // ---- Linearity --------------------------------------------------------------------------------

  const ZERO: Register := Zeros(8)

  lemma FeedLinear(c: Register, d: Register, x: bool, y: bool)
    ensures Feed(Xor(c, d), x != y) == Xor(Feed(c, x), Feed(d, y))
  {
  }

  lemma {:induction false} BitCrcLinear(c: Register, d: Register, a: seq<bool>, b: seq<bool>)
    requires |a| == |b|
    ensures BitCrc(Xor(c, d), Xor(a, b)) == Xor(BitCrc(c, a), BitCrc(d, b))
    decreases |a|
  {
    if a != [] {
      FeedLinear(c, d, a[0], b[0]);
      assert Xor(a, b)[1..] == Xor(a[1..], b[1..]);
      BitCrcLinear(Feed(c, a[0]), Feed(d, b[0]), a[1..], b[1..]);
    }
  }

  // The error pattern that turns one message into another.
  function Errors(a: seq<bv8>, b: seq<bv8>): (e: seq<bool>)
    requires |a| == |b|
    ensures |e| == 8 * |a|
  {
    Xor(Bits(a), Bits(b))
  }

  function XorBytes(a: seq<bv8>, b: seq<bv8>): (r: seq<bv8>)
    requires |a| == |b|
    ensures |r| == |a| && forall k :: 0 <= k < |a| ==> r[k] == a[k] ^ b[k]
  {
    seq(|a|, k requires 0 <= k < |a| => a[k] ^ b[k])
  }

  lemma XorAppend(x: seq<bool>, y: seq<bool>, u: seq<bool>, v: seq<bool>)
    requires |x| == |y| && |u| == |v|
    ensures Xor(x + u, y + v) == Xor(x, y) + Xor(u, v)
  {
  }

  lemma BitsOfHead(m: seq<bv8>, a: seq<bv8>, b: seq<bv8>)
    requires |a| == |b| && a != [] && m == XorBytes(a, b)
    ensures Bits(m) == Xor(BitsOf(a[0]), BitsOf(b[0])) + Bits(XorBytes(a[1..], b[1..]))
  {
    assert m[1..] == XorBytes(a[1..], b[1..]);
    BitsOfXor(a[0], b[0]);
  }

  lemma {:induction false} BitsOfXorBytes(a: seq<bv8>, b: seq<bv8>)
    requires |a| == |b|
    ensures Bits(XorBytes(a, b)) == Errors(a, b)
    decreases |a|
  {
    if a != [] {
      var x, y := BitsOf(a[0]), BitsOf(b[0]);
      XorAppend(x, y, Bits(a[1..]), Bits(b[1..]));
      BitsOfXorBytes(a[1..], b[1..]);
      BitsOfHead(XorBytes(a, b), a, b);
    }
  }

  lemma CrcDifferenceBits(init: bv8, a: seq<bv8>, b: seq<bv8>)
    requires |a| == |b|
    ensures Xor(Crc(init, a), Crc(init, b)) == BitCrc(ZERO, Errors(a, b))
  {
    var c := BitsOf(init);
    assert Xor(c, c) == ZERO;
    BitCrcLinear(c, c, Bits(a), Bits(b));
    hide Bits, BitCrc;
  }

  /** CRC(i, a) xor CRC(i, b) = CRC(0, a xor b): the difference of two check values depends on the
      error alone. */
  lemma CrcDifference(init: bv8, a: seq<bv8>, b: seq<bv8>)
    requires |a| == |b|
    ensures Xor(Crc(init, a), Crc(init, b)) == BitCrc(ZERO, Errors(a, b))
    ensures Xor(BitsOf(TableCrc(init, a)), BitsOf(TableCrc(init, b))) == BitsOf(TableCrc(0, XorBytes(a, b)))
  {
    CrcDifferenceBits(init, a, b);
    ZeroIsZero();
    BitsOfXorBytes(a, b);
    TableCrcIsBitSerial(init, a);
    TableCrcIsBitSerial(init, b);
    TableCrcIsBitSerial(0, XorBytes(a, b));
    hide Bits, BitsOf, BitCrc, TableCrc, Errors, XorBytes, Xor;
  }

  lemma ZeroIsZero()
    ensures BitsOf(0) == ZERO
  {
  }

  lemma XorIsZero(a: seq<bool>, b: seq<bool>)
    requires |a| == |b|
    ensures Xor(a, b) == Zeros(|a|) <==> a == b
  {
    if Xor(a, b) == Zeros(|a|) {
      forall k | 0 <= k < |a|
        ensures a[k] == b[k]
      {
        assert Xor(a, b)[k] == Zeros(|a|)[k];
      }
    }
  }

  lemma Undetected(init: bv8, a: seq<bv8>, b: seq<bv8>)
    requires |a| == |b|
    ensures Crc(init, a) == Crc(init, b) <==> BitCrc(ZERO, Errors(a, b)) == ZERO
  {
    CrcDifference(init, a, b);
    XorIsZero(Crc(init, a), Crc(init, b));
  }

  // ---- Runs of zeros ----------------------------------------------------------------------------

  lemma {:induction false} FeedZeros(c: Register, n: nat)
    ensures BitCrc(c, Zeros(n)) == MulXn(c, n)
    decreases n
  {
    if n > 0 {
      assert c[0 := c[0] != false] == c;
      assert Zeros(n)[1..] == Zeros(n - 1);
      FeedZeros(MulX(c), n - 1);
    }
  }

  lemma MulXZero(c: Register)
    ensures MulX(c) == ZERO <==> c == ZERO
  {
    if MulX(c) == ZERO {
      assert MulX(c)[7] == c[0];
      forall k | 0 <= k < 8
        ensures !c[k]
      {
        if k > 0 {
          assert MulX(c)[k - 1] == ZERO[k - 1];
        }
      }
    }
  }

  lemma {:induction false} MulXnZero(c: Register, n: nat)
    ensures MulXn(c, n) == ZERO <==> c == ZERO
    decreases n
  {
    if n > 0 {
      MulXZero(c);
      MulXnZero(MulX(c), n - 1);
    }
  }

  // Clean bits before and after an error neither hide nor reveal it.
  lemma ZeroMargins(before: nat, w: seq<bool>, after: nat)
    ensures BitCrc(ZERO, Zeros(before) + w + Zeros(after)) == ZERO <==> BitCrc(ZERO, w) == ZERO
  {
    BitCrcAppend(ZERO, Zeros(before) + w, Zeros(after));
    BitCrcAppend(ZERO, Zeros(before), w);
    FeedZeros(ZERO, before);
    MulXnZero(ZERO, before);
    FeedZeros(BitCrc(ZERO, w), after);
    MulXnZero(BitCrc(ZERO, w), after);
  }

  // ---- Two errors -------------------------------------------------------------------------------

  const TOP: Register := [true, false, false, false, false, false, false, false]

  // Messages a and b differ at exactly the bit positions p and q.
  ghost predicate DifferAtTwo(a: seq<bv8>, b: seq<bv8>, p: nat, q: nat) {
    && |a| == |b|
    && p < q < 8 * |a|
    && forall k :: 0 <= k < 8 * |a| ==> (Bits(a)[k] != Bits(b)[k] <==> k == p || k == q)
  }

  // The register after one more bit is zero exactly when it held that bit and nothing else.
  lemma FeedToZero(r: Register, bit: bool)
    ensures Feed(r, bit) == ZERO <==> r == (if bit then TOP else ZERO)
  {
    var t: Register := r[0 := r[0] != bit];
    MulXZero(t);
    assert forall k :: 0 < k < 8 ==> r[k] == t[k];
    if t == ZERO {
      assert r == if bit then TOP else ZERO;
    }
  }

  lemma TwoOnes(d: nat)
    requires d > 0
    ensures BitCrc(ZERO, [true] + Zeros(d - 1) + [true]) == ZERO <==> d % 127 == 0
  {
    var s := MulXn(TOP, d);
    assert BitCrc(ZERO, [true] + Zeros(d - 1)) == s by {
      BitCrcAppend(ZERO, [true], Zeros(d - 1));
      assert ZERO[0 := true] == TOP;
      FeedZeros(MulX(TOP), d - 1);
    }
    BitCrcAppend(ZERO, [true] + Zeros(d - 1), [true]);
    FeedToZero(s, true);
    Crc8Table.OrderFromTop(d);
    PowerIsMulXn(0x80, d);
    assert BitsOf(0x80) == TOP;
    if s == TOP {
      BitsOfInjective(Crc8Table.Power(0x80, d), 0x80);
    }
  }

  /** Two flipped bits go unnoticed exactly when their distance is a multiple of 127. */
  lemma TwoBitErrors(init: bv8, a: seq<bv8>, b: seq<bv8>, p: nat, q: nat)
    requires DifferAtTwo(a, b, p, q)
    ensures Crc(init, a) == Crc(init, b) <==> (q - p) % 127 == 0
  {
    var e := Errors(a, b);
    var d := q - p;
    var w := [true] + Zeros(d - 1) + [true];
    assert e == Zeros(p) + w + Zeros(|e| - q - 1);
    ZeroMargins(p, w, |e| - q - 1);
    TwoOnes(d);
    Undetected(init, a, b);
  }

  // ---- Parity -----------------------------------------------------------------------------------

  lemma MulXParity(c: Register)
    ensures Ones(MulX(c)) % 2 == Ones(c) % 2
  {
    var shifted := c[1..] + [false];
    var reduction := if c[0] then DIVISOR[1..] else Zeros(8);
    assert MulX(c) == Xor(shifted, reduction);
    OnesXor(shifted, reduction);
    OnesAppend(c[1..], [false]);
    OnesZero(Zeros(8));
    assert Ones(DIVISOR[1..]) == 3 by {
      assert DIVISOR[1..] == [false, false, true] + [true, false, false] + [false, true];
      OnesAppend([false, false, true] + [true, false, false], [false, true]);
      OnesAppend([false, false, true], [true, false, false]);
    }
  }

  /** The parity of the register follows the parity of what was fed to it, because x + 1 divides the
      polynomial. */
  lemma {:induction false} BitCrcParity(c: Register, bits: seq<bool>)
    ensures Ones(BitCrc(c, bits)) % 2 == (Ones(c) + Ones(bits)) % 2
    decreases |bits|
  {
    if bits != [] {
      var d := c[0 := c[0] != bits[0]];
      assert d[1..] == c[1..];
      MulXParity(d);
      BitCrcParity(Feed(c, bits[0]), bits[1..]);
    }
  }

  /** An odd number of flipped bits is always noticed, whatever the length. */
  lemma OddErrors(init: bv8, a: seq<bv8>, b: seq<bv8>)
    requires |a| == |b| && Ones(Errors(a, b)) % 2 == 1
    ensures Crc(init, a) != Crc(init, b)
  {
    Undetected(init, a, b);
    BitCrcParity(ZERO, Errors(a, b));
    OnesZero(ZERO);
  }

  // ---- Bursts -----------------------------------------------------------------------------------

  // Messages a and b agree outside the n bits starting at position s.
  ghost predicate DifferWithin(a: seq<bv8>, b: seq<bv8>, s: nat, n: nat) {
    && |a| == |b|
    && s + n <= 8 * |a|
    && forall k :: 0 <= k < 8 * |a| && !(s <= k < s + n) ==> Bits(a)[k] == Bits(b)[k]
  }

  lemma WindowOfErrors(a: seq<bv8>, b: seq<bv8>, s: nat, n: nat)
    requires DifferWithin(a, b, s, n)
    ensures Errors(a, b) == Zeros(s) + Errors(a, b)[s..s + n] + Zeros(8 * |a| - s - n)
  {
  }

  // The messages are equal exactly when their window of errors is empty, and the CRC notices what it does of
  // the window alone.
  lemma WindowDecides(init: bv8, a: seq<bv8>, b: seq<bv8>, s: nat, n: nat)
    requires DifferWithin(a, b, s, n)
    ensures Crc(init, a) == Crc(init, b) <==> BitCrc(ZERO, Errors(a, b)[s..s + n]) == ZERO
    ensures Bits(a) == Bits(b) <==> Errors(a, b)[s..s + n] == Zeros(n)
  {
    var w := Errors(a, b)[s..s + n];
    WindowOfErrors(a, b, s, n);
    WindowEmpty(a, b, s, n);
    ZeroMargins(s, w, 8 * |a| - s - n);
    Undetected(init, a, b);
    hide BitCrc, Bits, Crc, Errors;
  }

  lemma WindowEmpty(a: seq<bv8>, b: seq<bv8>, s: nat, n: nat)
    requires DifferWithin(a, b, s, n)
    ensures Bits(a) == Bits(b) <==> Errors(a, b)[s..s + n] == Zeros(n)
  {
    var e, w := Errors(a, b), Errors(a, b)[s..s + n];
    hide Bits;
    if w == Zeros(n) {
      forall k | 0 <= k < 8 * |a|
        ensures Bits(a)[k] == Bits(b)[k]
      {
        if s <= k < s + n {
          assert w[k - s] == e[k] == (Bits(a)[k] != Bits(b)[k]);
        }
      }
    }
  }

  /** An error confined to eight consecutive bits, across a byte boundary or not, is always noticed. */
  lemma BurstOfEight(init: bv8, a: seq<bv8>, b: seq<bv8>, s: nat)
    requires DifferWithin(a, b, s, 8)
    ensures Crc(init, a) == Crc(init, b) <==> Bits(a) == Bits(b)
  {
    var w: Register := Errors(a, b)[s..s + 8];
    WindowDecides(init, a, b, s, 8);
    FeedByte(ZERO, w);
    assert Xor(ZERO, w) == w;
    MulXnZero(w, 8);
    hide BitCrc, Bits, Crc, Errors, MulXn;
  }

  lemma NineBits(w: seq<bool>)
    requires |w| == 9
    ensures BitCrc(ZERO, w) == ZERO <==> w == Zeros(9) || w == DIVISOR
  {
    var head: Register := w[..8];
    NineBitsFed(head, w[8]);
    assert w == head + [w[8]];
    hide BitCrc, MulXn, Feed;
    FeedToZero(MulXn(head, 8), w[8]);
    InverseOfX(head);
    MulXnZero(head, 8);
    NineBitsSplit(w);
  }

  lemma NineBitsSplit(w: seq<bool>)
    requires |w| == 9
    ensures w == Zeros(9) <==> w[..8] == ZERO && !w[8]
    ensures w == DIVISOR <==> w[..8] == DIVISOR[..8] && w[8]
  {
    assert w == w[..8] + [w[8]] && Zeros(9) == ZERO + [false] && DIVISOR == DIVISOR[..8] + [true];
  }

  lemma NineBitsFed(head: Register, last: bool)
    ensures BitCrc(ZERO, head + [last]) == Feed(MulXn(head, 8), last)
  {
    BitCrcAppend(ZERO, head, [last]);
    FeedByte(ZERO, head);
    assert Xor(ZERO, head) == head;
  }

  // x^7 + x^4 + x^3 is the only register that eight products with x take to x^7.
  lemma InverseOfX(c: Register)
    ensures MulXn(c, 8) == TOP <==> c == DIVISOR[..8]
  {
    var d: Register := DIVISOR[..8];
    PowerIsMulXn(0x98, 8);
    assert BitsOf(0x98) == d;
    assert Crc8Table.Power(0x98, 8) == 0x80;
    assert BitsOf(0x80) == TOP;
    MulXnXor(c, d, 8);
    MulXnZero(Xor(c, d), 8);
    XorIsZero(c, d);
    XorIsZero(MulXn(c, 8), MulXn(d, 8));
  }

  lemma MulXnXor(c: Register, d: Register, n: nat)
    ensures MulXn(Xor(c, d), n) == Xor(MulXn(c, n), MulXn(d, n))
  {
    BitCrcLinear(c, d, Zeros(n), Zeros(n));
    assert Xor(Zeros(n), Zeros(n)) == Zeros(n);
    FeedZeros(c, n);
    FeedZeros(d, n);
    FeedZeros(Xor(c, d), n);
  }

  /** Of the errors confined to nine consecutive bits exactly one goes unnoticed: the polynomial itself. */
  lemma BurstOfNine(init: bv8, a: seq<bv8>, b: seq<bv8>, s: nat)
    requires DifferWithin(a, b, s, 9)
    ensures Crc(init, a) == Crc(init, b) <==> Bits(a) == Bits(b) || Errors(a, b)[s..s + 9] == DIVISOR
  {
    WindowDecides(init, a, b, s, 9);
    NineBits(Errors(a, b)[s..s + 9]);
    hide BitCrc, Bits, Crc, Errors;
  }

  // ---- Frames -----------------------------------------------------------------------------------

  // A frame is accepted when it has a payload and its last byte is the CRC of the bytes before it.
  predicate Accepts(f: seq<bv8>) {
    |f| > 1 && f[|f| - 1] == TableCrc(INIT, f[..|f| - 1])
  }

  // What the senders do: append the CRC.
  function Frame(payload: seq<bv8>): seq<bv8> {
    payload + [TableCrc(INIT, payload)]
  }

  lemma {:induction false} BitsAppend(m: seq<bv8>, b: bv8)
    ensures Bits(m + [b]) == Bits(m) + BitsOf(b)
    decreases |m|
  {
    if m != [] {
      assert (m + [b])[1..] == m[1..] + [b];
      BitsAppend(m[1..], b);
    }
  }

  /** The CRC over a message and a last byte is zero exactly when that byte is the CRC of the message, for every
      initial value. */
  lemma Residue(init: bv8, m: seq<bv8>, b: bv8)
    ensures Crc(init, m + [b]) == ZERO <==> b == TableCrc(init, m)
  {
    var c := Crc(init, m);
    BitsAppend(m, b);
    BitCrcAppend(BitsOf(init), Bits(m), BitsOf(b));
    FeedByte(c, BitsOf(b));
    MulXnZero(Xor(c, BitsOf(b)), 8);
    XorIsZero(c, BitsOf(b));
    TableCrcIsBitSerial(init, m);
    if c == BitsOf(b) {
      BitsOfInjective(b, TableCrc(init, m));
    }
  }

  /** A frame is accepted exactly when the CRC over all of it, check byte included, is zero. */
  lemma AcceptsIffResidueZero(f: seq<bv8>)
    ensures Accepts(f) <==> |f| > 1 && Crc(0xFF, f) == ZERO
  {
    if |f| > 1 {
      var m := f[..|f| - 1];
      Residue(INIT, m, f[|f| - 1]);
      assert m + [f[|f| - 1]] == f;
    }
  }

  // One turn of the loop, with the table entry as a number.
  lemma NextByte(c: bv8, b: bv8, rest: seq<bv8>, e: bv8)
    requires Crc8Table.ShiftReduce8(c ^ b) == e
    ensures TableCrc(c, [b] + rest) == TableCrc(e, rest)
  {
    Crc8Table.EntryIsShiftReduce8(c ^ b);
    assert ([b] + rest)[1..] == rest;
  }

  /** Known answers of the loop: a zero byte has check byte 0xAC, the digits 1 to 9 have 0xF7. */
  lemma KnownAnswers()
    ensures TableCrc(INIT, [0x00]) == 0xAC
    ensures TableCrc(INIT, DIGITS) == 0xF7
  {
    NextByte(0xFF, 0x00, [], 0xAC);
    assert [0x00] + [] == [0x00 as bv8];
    DigitsFirst();
    DigitsLast();
  }

  const DIGITS: seq<bv8> := [0x31, 0x32, 0x33, 0x34, 0x35] + [0x36, 0x37, 0x38, 0x39]

  lemma DigitsFirst()
    ensures TableCrc(0xFF, DIGITS) == TableCrc(0x9D, [0x36, 0x37, 0x38, 0x39])
  {
    hide TableCrc;
    NextByte(0xFF, 0x31, [0x32, 0x33, 0x34, 0x35, 0x36, 0x37, 0x38, 0x39], 0x58);
    NextByte(0x58, 0x32, [0x33, 0x34, 0x35, 0x36, 0x37, 0x38, 0x39], 0x60);
    NextByte(0x60, 0x33, [0x34, 0x35, 0x36, 0x37, 0x38, 0x39], 0x2D);
    NextByte(0x2D, 0x34, [0x35, 0x36, 0x37, 0x38, 0x39], 0xCB);
    NextByte(0xCB, 0x35, [0x36, 0x37, 0x38, 0x39], 0x9D);
    assert DIGITS == [0x31] + [0x32, 0x33, 0x34, 0x35, 0x36, 0x37, 0x38, 0x39];
    assert [0x32, 0x33, 0x34, 0x35, 0x36, 0x37, 0x38, 0x39] == [0x32 as bv8] + [0x33, 0x34, 0x35, 0x36, 0x37, 0x38, 0x39];
    assert [0x33, 0x34, 0x35, 0x36, 0x37, 0x38, 0x39] == [0x33 as bv8] + [0x34, 0x35, 0x36, 0x37, 0x38, 0x39];
    assert [0x34, 0x35, 0x36, 0x37, 0x38, 0x39] == [0x34 as bv8] + [0x35, 0x36, 0x37, 0x38, 0x39];
    assert [0x35, 0x36, 0x37, 0x38, 0x39] == [0x35 as bv8] + [0x36, 0x37, 0x38, 0x39];
  }

  lemma DigitsLast()
    ensures TableCrc(0x9D, [0x36, 0x37, 0x38, 0x39]) == 0xF7
  {
    NextByte(0x9D, 0x36, [0x37, 0x38, 0x39], 0x16);
    NextByte(0x16, 0x37, [0x38, 0x39], 0xB7);
    NextByte(0xB7, 0x38, [0x39], 0x54);
    NextByte(0x54, 0x39, [], 0xF7);
    assert [0x36, 0x37, 0x38, 0x39] == [0x36 as bv8] + [0x37, 0x38, 0x39];
    assert [0x37, 0x38, 0x39] == [0x37 as bv8] + [0x38, 0x39];
    assert [0x38, 0x39] == [0x38 as bv8] + [0x39];
    assert [0x39] == [0x39 as bv8] + [];
  }

  /** Round trip: what a sender frames, the receiver accepts; and no other check byte would do. */
  lemma FrameAccepted(payload: seq<bv8>, check: bv8)
    requires payload != []
    ensures Accepts(Frame(payload))
    ensures Accepts(payload + [check]) <==> payload + [check] == Frame(payload)
  {
    assert (payload + [check])[..|payload|] == payload;
    assert Frame(payload)[..|payload|] == payload;
  }

  // An accepted frame f was turned into g; g is accepted exactly when the error leaves no trace.
  lemma AcceptedAfterErrors(f: seq<bv8>, g: seq<bv8>)
    requires Accepts(f) && |g| == |f|
    ensures Accepts(g) <==> Crc(INIT, g) == Crc(INIT, f)
  {
    AcceptsIffResidueZero(f);
    AcceptsIffResidueZero(g);
  }

  /** Two bit errors anywhere in an accepted frame, check byte included, go unnoticed exactly at a
      distance of 127 or a multiple. */
  lemma FrameTwoBitErrors(f: seq<bv8>, g: seq<bv8>, p: nat, q: nat)
    requires Accepts(f) && DifferAtTwo(f, g, p, q)
    ensures Accepts(g) <==> (q - p) % 127 == 0
    ensures |f| <= 15 ==> !Accepts(g)
    ensures |f| == 20 ==> (Accepts(g) <==> q - p == 127)
    ensures |f| == 32 ==> (Accepts(g) <==> q - p == 127 || q - p == 254)
  {
    AcceptedAfterErrors(f, g);
    TwoBitErrors(INIT, f, g, p, q);
  }

  /** An odd number of bit errors in an accepted frame of any length is always noticed. */
  lemma FrameOddErrors(f: seq<bv8>, g: seq<bv8>)
    requires Accepts(f) && |g| == |f| && Ones(Errors(f, g)) % 2 == 1
    ensures !Accepts(g)
  {
    AcceptedAfterErrors(f, g);
    OddErrors(INIT, f, g);
  }

  /** So is every change within eight consecutive bits of it. */
  lemma FrameBurst(f: seq<bv8>, g: seq<bv8>, s: nat)
    requires Accepts(f) && DifferWithin(f, g, s, 8)
    ensures Accepts(g) <==> Bits(f) == Bits(g)
  {
    AcceptedAfterErrors(f, g);
    BurstOfEight(INIT, f, g, s);
  }

  lemma TwoPositions(f: seq<bv8>, g: seq<bv8>) returns (p: nat, q: nat)
    requires |f| == |g| && Ones(Errors(f, g)) == 2
    ensures DifferAtTwo(f, g, p, q)
  {
    p, q := PositionsOfTwo(Errors(f, g));
  }

  lemma PositionsOfTwo(e: seq<bool>) returns (p: nat, q: nat)
    requires Ones(e) == 2
    ensures p < q < |e| && forall k :: 0 <= k < |e| ==> (e[k] <==> k == p || k == q)
  {
    p := FirstOne(e);
    var rest := e[p + 1..];
    var d := PositionOfOne(rest);
    q := p + 1 + d;
    assert forall k :: 0 <= k < p ==> e[k] == e[..p][k];
    assert forall k :: p < k < |e| ==> e[k] == rest[k - p - 1];
  }

  lemma PositionOfOne(e: seq<bool>) returns (p: nat)
    requires Ones(e) == 1
    ensures p < |e| && forall k :: 0 <= k < |e| ==> (e[k] <==> k == p)
  {
    p := FirstOne(e);
    OnesZero(e[p + 1..]);
    assert forall k :: 0 <= k < p ==> e[k] == e[..p][k];
    assert forall k :: p < k < |e| ==> e[k] == e[p + 1..][k - p - 1];
  }

  /** Frames of at most 15 bytes: one, two or three bit errors are always noticed. */
  lemma ShortFrameDistance(f: seq<bv8>, g: seq<bv8>)
    requires Accepts(f) && |g| == |f| <= 15
    requires 1 <= Ones(Errors(f, g)) <= 3
    ensures !Accepts(g)
  {
    if Ones(Errors(f, g)) == 2 {
      var p, q := TwoPositions(f, g);
      FrameTwoBitErrors(f, g, p, q);
    } else {
      FrameOddErrors(f, g);
    }
  }

  // ---- Dispatch of an accepted reply --------------------------------------------------------------

  datatype Route = Dropped | ToBkd | ToBkhoA | ToOutServo

  // IN_TOTAL_BKD of inc/uart.h.
  const BKD_SLOTS := 12

  // The unit that was polled in a slot (Qwerty_all_Device): the last two slots are BKHO-A and the servo.
  function Polled(slot: nat): Route {
    if slot < BKD_SLOTS then ToBkd else if slot == BKD_SLOTS then ToBkhoA else ToOutServo
  }

  // The CRC test of Check_message_UART
  method CheckByteMatches(message: array<bv8>, size: nat) returns (ok: bool)
    requires size < 256 && size <= message.Length
    ensures ok == Accepts(message[..size])
  {
    ok := false;
    if size > 1 {
      var crc := ComputeCrc8(message, size - 1);
      assert message[..size][..size - 1] == message[..size - 1];
      TableCrcIsBitSerial(INIT, message[..size - 1]);
      BitsOfInjective(crc, TableCrc(INIT, message[..size - 1]));
      ok := message[size - 1] == crc;
    }
  }

  /** `Check_message_UART`: drop a reply with a wrong check byte, hand on the others.  The handler chosen
      is that of the polled unit in every slot but the servo's: the servo branch is never taken. */
  method CheckMessageUart(message: array?<bv8>, size: nat, currentBkd: nat) returns (route: Route)
    requires size < 256 && (message != null ==> size <= message.Length)
    ensures route == Dropped <==> message == null || !Accepts(message[..size])
    ensures route != Dropped ==> route == if currentBkd == 12 then ToBkhoA else ToBkd
    ensures route != Dropped ==> (route == Polled(currentBkd) <==> currentBkd <= BKD_SLOTS)
    ensures route != ToOutServo
  {
    if message == null {
      return Dropped;
    }
    route := Dropped;
    var ok := CheckByteMatches(message, size);
    if ok {
      if currentBkd != BKD_SLOTS {
        route := ToBkd;
      } else {
        if currentBkd == BKD_SLOTS {
          route := ToBkhoA;
        } else {
          route := ToOutServo;
        }
      }
    }
  }
}

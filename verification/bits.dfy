/** Bit strings: the bits of bytes and messages, and addition over GF(2). */
module BitStrings {

  predicate Has(b: bv8, mask: bv8) {
    b & mask != 0
  }

  // The bits of a byte, most significant first.
  function BitsOf(b: bv8): (bits: seq<bool>)
    ensures |bits| == 8
  {
    [Has(b, 0x80), Has(b, 0x40), Has(b, 0x20), Has(b, 0x10), Has(b, 0x08), Has(b, 0x04), Has(b, 0x02), Has(b, 0x01)]
  }

  // The bits of a message, byte after byte.
  function Bits(m: seq<bv8>): (bits: seq<bool>)
    ensures |bits| == 8 * |m|
  {
    if m == [] then [] else BitsOf(m[0]) + Bits(m[1..])
  }

  function Xor(a: seq<bool>, b: seq<bool>): (r: seq<bool>)
    requires |a| == |b|
    ensures |r| == |a|
    ensures forall k :: 0 <= k < |a| ==> r[k] == (a[k] != b[k])
  {
    seq(|a|, k requires 0 <= k < |a| => a[k] != b[k])
  }

  function Zeros(n: nat): (r: seq<bool>)
    ensures |r| == n && forall k :: 0 <= k < n ==> !r[k]
  {
    seq(n, _ => false)
  }

  // The number of ones.
  function Ones(bits: seq<bool>): nat {
    if bits == [] then 0 else (if bits[0] then 1 else 0) + Ones(bits[1..])
  }

  lemma BitsOfInjective(a: bv8, b: bv8)
    requires BitsOf(a) == BitsOf(b)
    ensures a == b
  {
    var s, t := BitsOf(a), BitsOf(b);
    assert s[0] == t[0] && s[1] == t[1] && s[2] == t[2] && s[3] == t[3];
    assert s[4] == t[4] && s[5] == t[5] && s[6] == t[6] && s[7] == t[7];
  }

  lemma HasXor(a: bv8, b: bv8, mask: bv8)
    requires mask in {0x80, 0x40, 0x20, 0x10, 0x08, 0x04, 0x02, 0x01}
    ensures Has(a ^ b, mask) == (Has(a, mask) != Has(b, mask))
  {
  }

  lemma XorLiteral(a: seq<bool>, b: seq<bool>)
    requires |a| == |b| == 8
    ensures [a[0] != b[0], a[1] != b[1], a[2] != b[2], a[3] != b[3],
             a[4] != b[4], a[5] != b[5], a[6] != b[6], a[7] != b[7]] == Xor(a, b)
  {
  }

  lemma BitsOfXor(a: bv8, b: bv8)
    ensures BitsOf(a ^ b) == Xor(BitsOf(a), BitsOf(b))
  {
    HasXor(a, b, 0x80);
    HasXor(a, b, 0x40);
    HasXor(a, b, 0x20);
    HasXor(a, b, 0x10);
    HasXor(a, b, 0x08);
    HasXor(a, b, 0x04);
    HasXor(a, b, 0x02);
    HasXor(a, b, 0x01);
    XorLiteral(BitsOf(a), BitsOf(b));
  }

  lemma {:induction false} OnesAppend(a: seq<bool>, b: seq<bool>)
    ensures Ones(a + b) == Ones(a) + Ones(b)
    decreases |a|
  {
    if a == [] {
      assert a + b == b;
    } else {
      assert (a + b)[1..] == a[1..] + b;
      OnesAppend(a[1..], b);
    }
  }

  // Parity is additive.
  lemma {:induction false} OnesXor(a: seq<bool>, b: seq<bool>)
    requires |a| == |b|
    ensures Ones(Xor(a, b)) % 2 == (Ones(a) + Ones(b)) % 2
    decreases |a|
  {
    if a != [] {
      assert Xor(a, b)[1..] == Xor(a[1..], b[1..]);
      OnesXor(a[1..], b[1..]);
    }
  }

  lemma {:induction false} OnesZero(bits: seq<bool>)
    ensures Ones(bits) == 0 <==> bits == Zeros(|bits|)
    decreases |bits|
  {
    if bits != [] {
      OnesZero(bits[1..]);
      assert bits == [bits[0]] + bits[1..];
      assert Zeros(|bits|)[1..] == Zeros(|bits| - 1);
    }
  }

  // A bit string with a one splits at its first one.
  lemma {:induction false} FirstOne(bits: seq<bool>) returns (p: nat)
    requires Ones(bits) > 0
    ensures p < |bits| && bits[p] && bits[..p] == Zeros(p)
    ensures Ones(bits[p + 1..]) == Ones(bits) - 1
    decreases |bits|
  {
    if bits[0] {
      p := 0;
    } else {
      var q := FirstOne(bits[1..]);
      p := q + 1;
      assert bits[1..][q + 1..] == bits[p + 1..];
      assert bits[..p] == [false] + bits[1..][..q];
    }
  }
}

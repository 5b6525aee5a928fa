/** Unsigned 32-bit words and bytes as their bits, least significant first, with C's bitwise operators. */
module Words {

  type Word = w: seq<bool> | |w| == 32 witness seq(32, _ => false)
  type Byte = b: seq<bool> | |b| == 8 witness seq(8, _ => false)

  function And(a: Word, b: Word): (r: Word)
    ensures forall i :: 0 <= i < 32 ==> r[i] == (a[i] && b[i])
  {
    seq(32, i requires 0 <= i < 32 => a[i] && b[i])
  }

  function Or(a: Word, b: Word): (r: Word)
    ensures forall i :: 0 <= i < 32 ==> r[i] == (a[i] || b[i])
  {
    seq(32, i requires 0 <= i < 32 => a[i] || b[i])
  }

  function Not(a: Word): (r: Word)
    ensures forall i :: 0 <= i < 32 ==> r[i] == !a[i]
  {
    seq(32, i requires 0 <= i < 32 => !a[i])
  }

  function Shl(a: Word, k: nat): (r: Word)
    ensures forall i :: 0 <= i < 32 ==> r[i] == (k <= i && a[i - k])
  {
    seq(32, i requires 0 <= i < 32 => k <= i && a[i - k])
  }

  function Shr(a: Word, k: nat): (r: Word)
    ensures forall i :: 0 <= i < 32 ==> r[i] == (i + k < 32 && a[i + k])
  {
    seq(32, i requires 0 <= i < 32 => i + k < 32 && a[i + k])
  }

  function Zero(): (r: Word)
    ensures forall i :: 0 <= i < 32 ==> !r[i]
  {
    seq(32, _ => false)
  }

  // The bits below n, which is `(1 << n) - 1` (LowMaskValue).
  function LowMask(n: nat): (r: Word)
    ensures forall i :: 0 <= i < 32 ==> r[i] == (i < n)
  {
    seq(32, i => i < n)
  }

  // BIT(x)
  function Bit(k: nat): (r: Word)
    ensures forall i :: 0 <= i < 32 ==> r[i] == (i == k)
  {
    seq(32, i => i == k)
  }

  // A byte promoted to a word, and a word stored in a byte.
  function Extend(b: Byte): (r: Word)
    ensures forall i :: 0 <= i < 32 ==> r[i] == (i < 8 && b[i])
  {
    seq(32, i requires 0 <= i < 32 => i < 8 && b[i])
  }

  function Low8(w: Word): (r: Byte)
    ensures forall i :: 0 <= i < 8 ==> r[i] == w[i]
  {
    w[..8]
  }

  // ---- Values ---------------------------------------------------------------------------------------

  function Pow2(n: nat): (r: nat)
    ensures r > 0
  {
    if n == 0 then 1 else 2 * Pow2(n - 1)
  }

  function Value(bits: seq<bool>): nat {
    if bits == [] then 0 else (if bits[0] then 1 else 0) + 2 * Value(bits[1..])
  }

  lemma {:induction false} ValueBound(bits: seq<bool>)
    ensures Value(bits) < Pow2(|bits|)
    decreases |bits|
  {
    if bits != [] {
      ValueBound(bits[1..]);
    }
  }

  lemma {:induction false} ValueAppend(a: seq<bool>, b: seq<bool>)
    ensures Value(a + b) == Value(a) + Pow2(|a|) * Value(b)
    decreases |a|
  {
    if a == [] {
      assert a + b == b;
    } else {
      assert (a + b)[1..] == a[1..] + b;
      ValueAppend(a[1..], b);
      Associate(2, Pow2(|a| - 1), Value(b));
    }
  }

  lemma Associate(a: nat, b: nat, c: nat)
    ensures a * (b * c) == a * b * c
  {
  }

  lemma {:induction false} ValueInjective(a: seq<bool>, b: seq<bool>)
    requires |a| == |b| && Value(a) == Value(b)
    ensures a == b
    decreases |a|
  {
    if a != [] {
      assert a[0] == b[0];
      ValueInjective(a[1..], b[1..]);
      assert a == [a[0]] + a[1..] && b == [b[0]] + b[1..];
    }
  }

  lemma {:induction false} ValueZeros(bits: seq<bool>)
    requires forall i :: 0 <= i < |bits| ==> !bits[i]
    ensures Value(bits) == 0
    decreases |bits|
  {
    if bits != [] {
      ValueZeros(bits[1..]);
    }
  }

  // The low n bits of a word are its value modulo 2^n.
  lemma ValueMod(bits: seq<bool>, n: nat)
    requires n <= |bits|
    ensures Value(bits[..n]) == Value(bits) % Pow2(n)
  {
    assert bits == bits[..n] + bits[n..];
    ValueAppend(bits[..n], bits[n..]);
    ValueBound(bits[..n]);
    ModUnique(Value(bits), Value(bits[n..]), Pow2(n), Value(bits[..n]));
  }

  lemma ModUnique(x: nat, q: nat, m: nat, r: nat)
    requires 0 < m && x == r + m * q && r < m
    ensures x % m == r
  {
    QuotientUnique(x / m, q, m, x % m, r);
  }

  lemma QuotientUnique(p: nat, q: nat, m: nat, r: nat, s: nat)
    requires r < m && s < m && m * p + r == m * q + s
    ensures p == q && r == s
  {
    if p < q {
      SmallerQuotient(p, q, m, r, s);
    } else if q < p {
      SmallerQuotient(q, p, m, s, r);
    }
  }

  // Numbers with remainders below m compare by their quotients first.
  lemma SmallerQuotient(p: nat, q: nat, m: nat, r: nat, s: nat)
    requires p < q && r < m
    ensures m * p + r < m * q + s
  {
    assert m * (p + 1) <= m * q;
  }

  // A word whose bits from n on are 0.
  lemma ValueLow(w: Word, n: nat)
    requires n <= 32 && forall i :: n <= i < 32 ==> !w[i]
    ensures Value(w) == Value(w[..n])
  {
    assert w == w[..n] + w[n..];
    ValueAppend(w[..n], w[n..]);
    ValueZeros(w[n..]);
  }

  lemma {:induction false} OnesValue(bits: seq<bool>)
    requires forall i :: 0 <= i < |bits| ==> bits[i]
    ensures Value(bits) == Pow2(|bits|) - 1
    decreases |bits|
  {
    if bits != [] {
      OnesValue(bits[1..]);
    }
  }

  /** The mask `(1 << n) - 1` is LowMask. */
  lemma LowMaskValue(n: nat)
    requires n < 32
    ensures Value(LowMask(n)) == Value(Bit(n)) - 1
  {
    ValueLow(LowMask(n), n);
    OnesValue(LowMask(n)[..n]);
    BitValue(n);
  }

  lemma BitValue(n: nat)
    requires n < 32
    ensures Value(Bit(n)) == Pow2(n)
  {
    var w := Bit(n);
    assert w == w[..n] + ([true] + w[n + 1..]);
    ValueAppend(w[..n], [true] + w[n + 1..]);
    ValueZeros(w[..n]);
    ValueZeros(w[n + 1..]);
    assert ([true] + w[n + 1..])[1..] == w[n + 1..];
  }
}

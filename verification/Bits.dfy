/** Unsigned machine words as sequences of bits, most significant bit first, and bytes as numbers. */
module Bits {
  import opened Arithmetic

  type Byte = x: int | 0 <= x < 256

  /** A word of `|w|` bits; `w[0]` is the highest bit. */
  type Word = seq<bool>

  function Zeros(n: nat): (w: Word)
    ensures |w| == n
  {
    seq(n, _ => false)
  }

  function Xor(a: Word, b: Word): (w: Word)
    requires |a| == |b|
    ensures |w| == |a|
  {
    seq(|a|, i requires 0 <= i < |a| => a[i] != b[i])
  }

  /** Bit reversal, stated position by position. */
  function Mirror(a: Word): (w: Word)
    ensures |w| == |a|
  {
    seq(|a|, i requires 0 <= i < |a| => a[|a| - 1 - i])
  }

  function Pow2(n: nat): (p: nat)
    ensures p >= 1
  {
    if n == 0 then 1 else 2 * Pow2(n - 1)
  }

  /** The number a word stands for. */
  function Value(w: Word): (v: nat)
    ensures v < Pow2(|w|)
  {
    if w == [] then 0 else 2 * Value(w[..|w| - 1]) + if w[|w| - 1] then 1 else 0
  }

  /** Bit `k` of `v`, counted from the lowest. */
  predicate BitAt(v: nat, k: nat)
    decreases k
  {
    if k == 0 then v % 2 == 1 else BitAt(v / 2, k - 1)
  }

  lemma {:induction false} BitIsQuotient(v: nat, k: nat)
    ensures BitAt(v, k) <==> v / Pow2(k) % 2 == 1
    decreases k
  {
    if k > 0 {
      BitIsQuotient(v / 2, k - 1);
      HalfThenDivide(v, Pow2(k - 1));
    }
  }

  lemma HalfThenDivide(v: nat, d: nat)
    requires d > 0
    ensures v / 2 / d == v / (2 * d)
  {
    var q, s := v / 2 / d, v / 2 % d;
    DivMod(v / 2, d);
    Nest(v, d, v / 2, q, s);
    QuotientIs(v, 2 * d, q, 2 * s + v % 2);
  }

  lemma QuotientIs(n: nat, d: nat, q: nat, r: nat)
    requires d > 0 && n == q * d + r && r < d
    ensures n / d == q
  {
    DivMod(n, d);
    SameQuotient(d, n / d, n % d, q, r);
  }

  lemma DivMod(n: nat, d: nat)
    requires d > 0
    ensures n == n / d * d + n % d && n % d < d
  {
  }

  lemma Nest(v: nat, d: nat, h: nat, q: nat, s: nat)
    requires h == q * d + s && h == v / 2
    ensures v == q * (2 * d) + (2 * s + v % 2)
  {
    assert q * (2 * d) == 2 * (q * d);
  }

  /** The low `n` bits of `v`. */
  function ToBits(n: nat, v: nat): (w: Word)
    ensures |w| == n
  {
    seq(n, i requires 0 <= i < n => BitAt(v, n - 1 - i))
  }

  lemma ToBitsSplit(n: nat, v: nat)
    requires n > 0
    ensures ToBits(n, v) == ToBits(n - 1, v / 2) + [v % 2 == 1]
  {
    var l, r := ToBits(n, v), ToBits(n - 1, v / 2) + [v % 2 == 1];
    forall i | 0 <= i < n ensures l[i] == r[i] {
      assert l[i] == BitAt(v, n - 1 - i);
    }
  }

  lemma {:induction false} ValueOfBits(n: nat, v: nat)
    requires v < Pow2(n)
    ensures Value(ToBits(n, v)) == v
  {
    if n > 0 {
      ToBitsSplit(n, v);
      ValueOfBits(n - 1, v / 2);
      assert ToBits(n, v)[..n - 1] == ToBits(n - 1, v / 2);
    }
  }

  lemma {:induction false} BitsOfValue(w: Word)
    ensures ToBits(|w|, Value(w)) == w
  {
    if w != [] {
      ToBitsSplit(|w|, Value(w));
      BitsOfValue(w[..|w| - 1]);
      assert w == w[..|w| - 1] + [w[|w| - 1]];
    }
  }

  lemma XorSelf(a: Word, b: Word)
    requires |a| == |b|
    ensures Xor(Xor(a, b), b) == a
  {
  }

  function ByteOf(w: Word): (b: Byte)
    requires |w| == 8
    ensures ToBits(8, b) == w
  {
    assert Pow2(8) == 256;
    BitsOfValue(w);
    Value(w)
  }

  /** Bitwise exclusive or of two bytes. */
  function XorByte(a: Byte, b: Byte): (c: Byte)
  {
    ByteOf(Xor(ToBits(8, a), ToBits(8, b)))
  }

  /** Bit by bit, counted from the lowest, it tells where the two bytes differ. */
  lemma XorByteBits(a: Byte, b: Byte, k: nat)
    requires k < 8
    ensures BitAt(XorByte(a, b), k) <==> BitAt(a, k) != BitAt(b, k)
  {
    hide BitAt;
    assert ToBits(8, XorByte(a, b))[7 - k] == Xor(ToBits(8, a), ToBits(8, b))[7 - k];
  }

  /** A byte is what its eight bits say. */
  lemma SameBits(a: Byte, b: Byte)
    requires forall k :: 0 <= k < 8 ==> BitAt(a, k) == BitAt(b, k)
    ensures a == b
  {
    hide BitAt;
    assert Pow2(8) == 256;
    assert ToBits(8, a) == ToBits(8, b);
    ValueOfBits(8, a);
    ValueOfBits(8, b);
  }

  /** The bits of a byte, from the lowest. */
  function Octet(v: Byte): (w: Word)
    ensures |w| == 8 && forall k :: 0 <= k < 8 ==> (w[k] <==> BitAt(v, k))
  {
    EightBits(v);
    hide BitAt;
    [v % 2 == 1, v / 2 % 2 == 1, v / 4 % 2 == 1, v / 8 % 2 == 1,
     v / 16 % 2 == 1, v / 32 % 2 == 1, v / 64 % 2 == 1, v / 128 % 2 == 1]
  }

  lemma MaskByte(a: Byte, b: Byte, c: Byte)
    requires forall k :: 0 <= k < 8 ==> (Octet(c)[k] <==> Octet(a)[k] != Octet(b)[k])
    ensures XorByte(a, b) == c
  {
    hide XorByte, BitAt, Octet;
    forall k | 0 <= k < 8 ensures BitAt(XorByte(a, b), k) == BitAt(c, k) {
      XorByteBits(a, b, k);
      assert Octet(c)[k] <==> Octet(a)[k] != Octet(b)[k];
    }
    SameBits(XorByte(a, b), c);
  }

  lemma EightBits(v: nat)
    ensures BitAt(v, 0) <==> v % 2 == 1
    ensures BitAt(v, 1) <==> v / 2 % 2 == 1
    ensures BitAt(v, 2) <==> v / 4 % 2 == 1
    ensures BitAt(v, 3) <==> v / 8 % 2 == 1
    ensures BitAt(v, 4) <==> v / 16 % 2 == 1
    ensures BitAt(v, 5) <==> v / 32 % 2 == 1
    ensures BitAt(v, 6) <==> v / 64 % 2 == 1
    ensures BitAt(v, 7) <==> v / 128 % 2 == 1
  {
    hide BitAt;
    PowersOfTwo();
    hide Pow2;
    BitIsQuotient(v, 0);
    BitIsQuotient(v, 1);
    BitIsQuotient(v, 2);
    BitIsQuotient(v, 3);
    BitIsQuotient(v, 4);
    BitIsQuotient(v, 5);
    BitIsQuotient(v, 6);
    BitIsQuotient(v, 7);
  }

  lemma PowersOfTwo()
    ensures Pow2(0) == 1 && Pow2(1) == 2 && Pow2(2) == 4 && Pow2(3) == 8
    ensures Pow2(4) == 16 && Pow2(5) == 32 && Pow2(6) == 64 && Pow2(7) == 128
  {
  }

  /** Applying the same mask twice gives the byte back. */
  lemma XorByteTwice(a: Byte, b: Byte)
    ensures XorByte(XorByte(a, b), b) == a
  {
    var x, y := ToBits(8, a), ToBits(8, b);
    XorSelf(x, y);
    assert Pow2(8) == 256;
    ValueOfBits(8, a);
  }
}

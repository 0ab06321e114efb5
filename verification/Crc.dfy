/** The cyclic redundancy codes of boost/crc.hpp, for every width. */
module Crc {
  import opened Bits

  /** Dividing the remainder by the polynomial, one bit: the highest bit is shifted out. */
  function Step(p: Word, r: Word): (s: Word)
    requires |p| == |r| > 0
    ensures |s| == |r|
  {
    var shifted := r[1..] + [false];
    if r[0] then Xor(shifted, p) else shifted
  }

  function Steps(p: Word, r: Word, n: nat): (s: Word)
    requires |p| == |r| > 0
    ensures |s| == |r|
    decreases n
  {
    if n == 0 then r else Steps(p, Step(p, r), n - 1)
  }

  /** The bit-by-bit remainder after the message bits `bits`, highest bit first. */
  function Divide(p: Word, r: Word, bits: Word): (s: Word)
    requires |p| == |r| > 0
    ensures |s| == |r|
    decreases |bits|
  {
    if bits == [] then r
    else Divide(p, Step(p, [r[0] != bits[0]] + r[1..]), bits[1..])
  }

  function OrderBits(reflect: bool, w: Word): (v: Word)
    ensures |v| == |w|
  {
    if reflect then Mirror(w) else w
  }

  /** The bit-by-bit remainder after a whole message of bytes. */
  function DivideBytes(p: Word, reflectIn: bool, r: Word, msg: seq<Byte>): (s: Word)
    requires |p| == |r| > 0
    ensures |s| == |r|
  {
    if msg == [] then r
    else Divide(p, DivideBytes(p, reflectIn, r, msg[..|msg| - 1]), OrderBits(reflectIn, ToBits(8, msg[|msg| - 1])))
  }

  /** Division of messages over the field with two elements: the checksum `crc_basic` promises. */
  function Checksum(p: Word, init: Word, final: Word, reflectIn: bool, reflectOut: bool, msg: seq<Byte>): (s: Word)
    requires |p| == |init| == |final| > 0
    ensures |s| == |p|
  {
    Xor(OrderBits(reflectOut, DivideBytes(p, reflectIn, init, msg)), final)
  }

  // ---- Linearity of the division ----

  lemma StepXor(p: Word, a: Word, b: Word)
    requires |p| == |a| == |b| > 0
    ensures Step(p, Xor(a, b)) == Xor(Step(p, a), Step(p, b))
  {
  }

  lemma {:induction false} StepsXor(p: Word, a: Word, b: Word, n: nat)
    requires |p| == |a| == |b| > 0
    ensures Steps(p, Xor(a, b), n) == Xor(Steps(p, a, n), Steps(p, b, n))
    decreases n
  {
    if n > 0 {
      StepXor(p, a, b);
      StepsXor(p, Step(p, a), Step(p, b), n - 1);
    }
  }

  lemma {:induction false} StepsAdd(p: Word, r: Word, m: nat, n: nat)
    requires |p| == |r| > 0
    ensures Steps(p, Steps(p, r, m), n) == Steps(p, r, m + n)
    decreases m
  {
    if m > 0 {
      StepsAdd(p, Step(p, r), m - 1, n);
    }
  }

  /** Leading zeros are only shifted out. */
  lemma {:induction false} StepsShift(p: Word, x: Word, k: nat)
    requires |p| == |x| + k > 0
    ensures Steps(p, Zeros(k) + x, k) == x + Zeros(k)
    decreases k
  {
    if k == 0 {
      assert Zeros(0) + x == x == x + Zeros(0);
    } else {
      var r := Zeros(k) + x;
      assert r[1..] + [false] == Zeros(k - 1) + (x + [false]);
      StepsShift(p, x + [false], k - 1);
      assert (x + [false]) + Zeros(k - 1) == x + Zeros(k);
    }
  }

  /** Feeding bits one at a time is adding them to the top of the remainder first. */
  lemma {:induction false} DivideIsSteps(p: Word, r: Word, d: Word)
    requires |p| == |r| > 0 && |d| <= |p|
    ensures Divide(p, r, d) == Steps(p, Xor(r, d + Zeros(|p| - |d|)), |d|)
    decreases |d|
  {
    var n := |p|;
    if d == [] {
      assert Xor(r, d + Zeros(n)) == r;
    } else {
      var flipped := [r[0] != d[0]] + r[1..];
      var rest := [false] + (d[1..] + Zeros(n - |d|));
      assert Xor(r, d + Zeros(n - |d|)) == Xor(flipped, rest);
      StepXor(p, flipped, rest);
      assert rest[1..] + [false] == d[1..] + Zeros(n - (|d| - 1));
      DivideIsSteps(p, Step(p, flipped), d[1..]);
    }
  }

  lemma {:induction false} DivideAppend(p: Word, r: Word, a: Word, b: Word)
    requires |p| == |r| > 0
    ensures Divide(p, r, a + b) == Divide(p, Divide(p, r, a), b)
    decreases |a|
  {
    if a == [] {
      assert a + b == b;
    } else {
      assert (a + b)[1..] == a[1..] + b;
      DivideAppend(p, Step(p, [r[0] != a[0]] + r[1..]), a[1..], b);
    }
  }

  lemma XorZeros(w: Word)
    ensures Xor(w, Zeros(|w|)) == w && Xor(Zeros(|w|), w) == w
  {
  }

  lemma XorSplit(hi: Word, lo: Word, d: Word)
    requires |d| == |hi|
    ensures Xor(hi + lo, d + Zeros(|lo|)) == Xor(Zeros(|hi|) + lo, Xor(hi, d) + Zeros(|lo|))
  {
  }

  lemma StepsSplit(p: Word, lo: Word, t: Word, k: nat)
    requires |p| == |t| == |lo| + k > 0
    ensures Steps(p, Xor(Zeros(k) + lo, t), k) == Xor(lo + Zeros(k), Steps(p, t, k))
  {
    StepsXor(p, Zeros(k) + lo, t, k);
    StepsShift(p, lo, k);
  }

  lemma DivideFromZero(p: Word, d: Word)
    requires |d| <= |p| && |p| > 0
    ensures Divide(p, Zeros(|p|), d) == Steps(p, d + Zeros(|p| - |d|), |d|)
  {
    DivideIsSteps(p, Zeros(|p|), d);
    XorZeros(d + Zeros(|p| - |d|));
  }

  /** Many bits at once: the top ones select a precomputed remainder, the rest is shifted. */
  lemma DivideByTable(p: Word, hi: Word, lo: Word, d: Word)
    requires |p| == |hi| + |lo| > 0 && |d| == |hi|
    ensures Divide(p, hi + lo, d) == Xor(lo + Zeros(|d|), Divide(p, Zeros(|p|), Xor(hi, d)))
  {
    DivideIsSteps(p, hi + lo, d);
    XorSplit(hi, lo, d);
    StepsSplit(p, lo, Xor(hi, d) + Zeros(|lo|), |d|);
    DivideFromZero(p, Xor(hi, d));
  }

  // ---- The table-driven form ----

  /** What entry `index` of the lookup table must hold. */
  function Entry(p: Word, reflect: bool, index: Word): (s: Word)
    requires |p| > 0
    ensures |s| == |p|
  {
    OrderBits(reflect, Divide(p, Zeros(|p|), OrderBits(reflect, index)))
  }

  /** One byte `x` through the table; a reflected remainder is kept bit-reversed. A remainder narrower than
      the byte is aligned with its first bits and leaves nothing to shift. */
  function FastByte(p: Word, reflect: bool, r: Word, x: Word): (s: Word)
    requires |p| == |r| > 0
    ensures |s| == |p|
  {
    var n, k := |r|, |x|;
    if n < k then Entry(p, reflect, Xor(if reflect then Zeros(k - n) + r else r + Zeros(k - n), x))
    else if reflect then Xor(Zeros(k) + r[..n - k], Entry(p, true, Xor(r[n - k..], x)))
    else Xor(r[k..] + Zeros(k), Entry(p, false, Xor(r[..k], x)))
  }

  lemma MirrorXor(a: Word, b: Word)
    requires |a| == |b|
    ensures Mirror(Xor(a, b)) == Xor(Mirror(a), Mirror(b))
  {
  }

  lemma MirrorConcat(a: Word, b: Word)
    ensures Mirror(a + b) == Mirror(b) + Mirror(a)
  {
  }

  lemma MirrorZeros(n: nat)
    ensures Mirror(Zeros(n)) == Zeros(n)
  {
  }

  lemma MirrorTwice(a: Word)
    ensures Mirror(Mirror(a)) == a
  {
  }

  /** The reflected byte step on a remainder cut into its top byte and the rest. */
  lemma MirroredByte(p: Word, hi: Word, lo: Word, x: Word)
    requires |p| == |hi| + |lo| > 0 && |x| == |hi|
    ensures Mirror(Divide(p, hi + lo, Mirror(x))) == Xor(Zeros(|x|) + Mirror(lo), Entry(p, true, Xor(Mirror(hi), x)))
  {
    DivideByTable(p, hi, lo, Mirror(x));
    var e := Divide(p, Zeros(|p|), Xor(hi, Mirror(x)));
    MirrorXor(lo + Zeros(|x|), e);
    MirrorConcat(lo, Zeros(|x|));
    MirrorZeros(|x|);
    MirrorXor(Mirror(hi), x);
    MirrorTwice(hi);
  }

  lemma XorParts(r: Word, d: Word)
    requires |r| <= |d|
    ensures Xor(r + Zeros(|d| - |r|), d) == Xor(r, d[..|r|]) + d[|r|..]
  {
  }

  /** More bits than the remainder has: all of it goes into the first of them. */
  lemma DivideNarrow(p: Word, r: Word, d: Word)
    requires |p| == |r| > 0 && |r| <= |d|
    ensures Divide(p, r, d) == Divide(p, Zeros(|p|), Xor(r + Zeros(|d| - |r|), d))
  {
    hide Divide, Steps, Xor;
    var n := |r|;
    var first, rest := d[..n], d[n..];
    assert d == first + rest;
    DivideAppend(p, r, first, rest);
    DivideIsSteps(p, r, first);
    assert first + Zeros(0) == first;
    XorParts(r, d);
    var x := Xor(r, first);
    DivideAppend(p, Zeros(n), x, rest);
    DivideFromZero(p, x);
    assert x + Zeros(0) == x;
  }

  lemma MirroredNarrow(p: Word, r: Word, x: Word)
    requires |p| == |r| > 0 && |r| < |x|
    ensures Entry(p, true, Xor(Zeros(|x| - |r|) + Mirror(r), x)) == Mirror(Divide(p, r, Mirror(x)))
  {
    hide Divide, Xor, Mirror, Zeros;
    var z := Zeros(|x| - |r|);
    DivideNarrow(p, r, Mirror(x));
    MirrorXor(z + Mirror(r), x);
    MirrorConcat(z, Mirror(r));
    MirrorZeros(|x| - |r|);
    MirrorTwice(r);
  }

  /** The table-driven byte step is the bit-by-bit one seen through the reflection. */
  lemma FastByteIsDivide(p: Word, reflect: bool, r: Word, x: Word)
    requires |p| == |r| > 0
    ensures FastByte(p, reflect, OrderBits(reflect, r), x) == OrderBits(reflect, Divide(p, r, OrderBits(reflect, x)))
  {
    hide Divide, Xor, Mirror, Zeros;
    if |p| >= |x| {
      FastWide(p, reflect, r, x);
    } else if reflect {
      MirroredNarrow(p, r, x);
    } else {
      DivideNarrow(p, r, x);
    }
  }

  lemma FastWide(p: Word, reflect: bool, r: Word, x: Word)
    requires |p| == |r| >= |x| && |p| > 0
    ensures FastByte(p, reflect, OrderBits(reflect, r), x) == OrderBits(reflect, Divide(p, r, OrderBits(reflect, x)))
  {
    var n, k := |p|, |x|;
    var hi, lo := r[..k], r[k..];
    assert r == hi + lo;
    if reflect {
      MirroredByte(p, hi, lo, x);
      MirrorConcat(hi, lo);
      var m := Mirror(r);
      assert m[n - k..] == Mirror(hi) && m[..n - k] == Mirror(lo);
    } else {
      DivideByTable(p, hi, lo, x);
    }
  }

  // ---- Augmented messages ----

  /** One byte of the augmented form: the byte enters at the bottom of the remainder. */
  function AugmentByte(p: Word, r: Word, x: Word): (s: Word)
    requires |p| == |r| >= |x| && |p| > 0
    ensures |s| == |p|
  {
    Xor(r[|x|..] + x, Entry(p, false, r[..|x|]))
  }

  function Augment(p: Word, r: Word, msg: seq<Byte>): (s: Word)
    requires |p| == |r| >= 8
    ensures |s| == |p|
  {
    if msg == [] then r
    else AugmentByte(p, Augment(p, r, msg[..|msg| - 1]), ToBits(8, msg[|msg| - 1]))
  }

  lemma XorMerge(lo: Word, x: Word, e: Word)
    requires |e| == |lo| + |x|
    ensures Xor(lo + x, e) == Xor(Xor(lo + Zeros(|x|), e), Zeros(|lo|) + x)
  {
  }

  lemma AugmentByteIsSteps(p: Word, r: Word, x: Word)
    requires |p| == |r| >= |x| && |p| > 0
    ensures AugmentByte(p, r, x) == Xor(Steps(p, r, |x|), Zeros(|p| - |x|) + x)
  {
    hide Steps, Xor, Zeros, Entry;
    var k := |x|;
    var hi, lo := r[..k], r[k..];
    assert r == hi + lo;
    XorMerge(lo, x, Entry(p, false, hi));
    StepsByTable(p, hi, lo);
  }

  lemma StepsByTable(p: Word, hi: Word, lo: Word)
    requires |p| == |hi| + |lo| > 0
    ensures Steps(p, hi + lo, |hi|) == Xor(lo + Zeros(|hi|), Entry(p, false, hi))
  {
    var z := Zeros(|hi|);
    DivideByTable(p, hi, lo, z);
    XorZeros(hi);
    DivideIsSteps(p, hi + lo, z);
    assert z + Zeros(|lo|) == Zeros(|p|);
    XorZeros(hi + lo);
  }

  /** Adding `x` below the remainder commutes with running it ahead. */
  lemma AugmentByteLags(p: Word, a: Word, x: Word)
    requires |p| == |a| >= |x| && |p| > 0
    ensures Divide(p, Steps(p, a, |p|), x) == Steps(p, AugmentByte(p, a, x), |p|)
  {
    hide Divide, Steps, Xor, Zeros, AugmentByte;
    var n, k := |p|, |x|;
    AugmentByteIsSteps(p, a, x);
    DivideIsSteps(p, Steps(p, a, n), x);
    StepsXor(p, Steps(p, a, n), x + Zeros(n - k), k);
    StepsXor(p, Steps(p, a, k), Zeros(n - k) + x, n);
    StepsAdd(p, a, n, k);
    StepsAdd(p, a, k, n);
    StepsShift(p, x, n - k);
    StepsAdd(p, Zeros(n - k) + x, n - k, k);
  }

  /** The plain remainder runs `|p|` zero bits ahead of the augmented one. */
  lemma {:induction false} AugmentLags(p: Word, r: Word, msg: seq<Byte>)
    requires |p| == |r| >= 8
    ensures DivideBytes(p, false, Steps(p, r, |p|), msg) == Steps(p, Augment(p, r, msg), |p|)
    decreases |msg|
  {
    if msg != [] {
      AugmentLags(p, r, msg[..|msg| - 1]);
      AugmentByteLags(p, Augment(p, r, msg[..|msg| - 1]), ToBits(8, msg[|msg| - 1]));
    }
  }

  lemma {:induction false} AugmentAppend(p: Word, r: Word, a: seq<Byte>, b: seq<Byte>)
    requires |p| == |r| >= 8
    ensures Augment(p, r, a + b) == Augment(p, Augment(p, r, a), b)
    decreases |b|
  {
    if b == [] {
      assert a + b == a;
    } else {
      AugmentAppend(p, r, a, b[..|b| - 1]);
      assert (a + b)[..|a + b| - 1] == a + b[..|b| - 1];
    }
  }

  /** The bits of a byte string, first byte highest. */
  function BitsOf(msg: seq<Byte>): (w: Word)
    ensures |w| == 8 * |msg|
  {
    if msg == [] then [] else BitsOf(msg[..|msg| - 1]) + ToBits(8, msg[|msg| - 1])
  }

  /** Feeding bytes below a remainder adds them to it after as many zero steps. */
  lemma {:induction false} AugmentTail(p: Word, r: Word, tail: seq<Byte>)
    requires |p| == |r| >= 8 * |tail| && |p| >= 8
    ensures Augment(p, r, tail) == Xor(Steps(p, r, 8 * |tail|), Zeros(|p| - 8 * |tail|) + BitsOf(tail))
    decreases |tail|
  {
    hide Steps, Xor, Zeros, AugmentByte, ToBits;
    if tail == [] {
      AugmentNothing(p, r);
    } else {
      var init, x := tail[..|tail| - 1], ToBits(8, tail[|tail| - 1]);
      AugmentTail(p, r, init);
      AugmentByteIsSteps(p, Augment(p, r, init), x);
      AugmentMore(p, Steps(p, r, 8 * |init|), BitsOf(init), x);
      StepsAdd(p, r, 8 * |init|, 8);
    }
  }

  lemma AugmentNothing(p: Word, r: Word)
    requires |p| == |r| > 0
    ensures r == Xor(Steps(p, r, 0), Zeros(|p|) + [])
  {
  }

  lemma StepsOfSum(p: Word, t: Word, y: Word, k: nat)
    requires |p| == |t| == |y| + k > 0
    ensures Steps(p, Xor(t, Zeros(k) + y), k) == Xor(Steps(p, t, k), y + Zeros(k))
  {
    StepsXor(p, t, Zeros(k) + y, k);
    StepsShift(p, y, k);
  }

  lemma AugmentMore(p: Word, t: Word, w: Word, x: Word)
    requires |p| == |t| >= |w| + |x| && |p| > 0
    ensures Xor(Steps(p, Xor(t, Zeros(|p| - |w|) + w), |x|), Zeros(|p| - |x|) + x)
         == Xor(Steps(p, t, |x|), Zeros(|p| - |w| - |x|) + (w + x))
  {
    var y := Zeros(|p| - |w| - |x|) + w;
    assert Zeros(|p| - |w|) + w == Zeros(|x|) + y;
    StepsOfSum(p, t, y, |x|);
    XorStack(Steps(p, t, |x|), w, x);
  }

  lemma XorStack(t: Word, x: Word, rest: Word)
    requires |t| >= |x| + |rest|
    ensures var n, j, k := |t|, |x|, |rest|;
            Xor(Xor(t, (Zeros(n - j - k) + x) + Zeros(k)), Zeros(n - k) + rest) == Xor(t, Zeros(n - j - k) + (x + rest))
  {
  }

  /** Some message bytes with exactly the bits of `w`. */
  function BytesOf(w: Word): (msg: seq<Byte>)
    requires |w| % 8 == 0
    ensures BitsOf(msg) == w
    decreases |w|
  {
    if w == [] then [] else
      var init, x := w[..|w| - 8], w[|w| - 8..];
      var msg := BytesOf(init) + [ByteOf(x)];
      assert msg[..|msg| - 1] == BytesOf(init);
      msg
  }

  lemma StepsOfZeros(p: Word, n: nat)
    requires |p| == n > 0
    ensures Steps(p, Zeros(n), n) == Zeros(n)
  {
    StepsShift(p, [], n);
    assert Zeros(n) + [] == Zeros(n) == [] + Zeros(n);
  }

  /** Appending as many zero bytes as the remainder has turns the augmented form into the plain
      unreflected one; a start value other than zero is the plain start run ahead by that many zeros. */
  lemma AugmentedZerosIsPlain(p: Word, r: Word, msg: seq<Byte>)
    requires |p| == |r| >= 8 && |p| % 8 == 0
    ensures Augment(p, r, msg + BytesOf(Zeros(|p|))) == DivideBytes(p, false, Steps(p, r, |p|), msg)
    ensures r == Zeros(|p|) ==>
              Augment(p, r, msg + BytesOf(Zeros(|p|))) == Checksum(p, Zeros(|p|), Zeros(|p|), false, false, msg)
  {
    var n := |p|;
    AugmentLags(p, r, msg);
    AugmentAppend(p, r, msg, BytesOf(Zeros(n)));
    AugmentTail(p, Augment(p, r, msg), BytesOf(Zeros(n)));
    assert Zeros(0) + Zeros(n) == Zeros(n);
    XorZeros(Steps(p, Augment(p, r, msg), n));
    if r == Zeros(n) {
      StepsOfZeros(p, n);
      XorZeros(DivideBytes(p, false, Zeros(n), msg));
    }
  }

  /** A message followed by its own checksum leaves the remainder zero. */
  lemma AugmentedChecksumIsZero(p: Word, msg: seq<Byte>)
    requires |p| >= 8 && |p| % 8 == 0
    ensures Augment(p, Zeros(|p|), msg + BytesOf(DivideBytes(p, false, Zeros(|p|), msg))) == Zeros(|p|)
  {
    var z := Zeros(|p|);
    var c := DivideBytes(p, false, z, msg);
    AugmentAppend(p, z, msg, BytesOf(c));
    AugmentTail(p, Augment(p, z, msg), BytesOf(c));
    assert c == Steps(p, Augment(p, z, msg), |p|) by {
      AugmentLags(p, z, msg);
      StepsOfZeros(p, |p|);
    }
    XorItself(c);
  }

  lemma XorItself(c: Word)
    ensures Xor(c, Zeros(0) + c) == Zeros(|c|)
  {
  }
}

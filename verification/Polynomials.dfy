/** Words as polynomials over the field with two elements, highest coefficient first; the codes of Crc are
    remainders of the division by one. */
module Polynomials {
  import opened Bits
  import opened Crc

  /** The product of a coefficient and a polynomial. */
  function Scaled(t: bool, g: Word): (w: Word)
    ensures |w| == |g|
  {
    if t then g else Zeros(|g|)
  }

  /** The product: (q x + t) g is (q g) x + t g. */
  function Times(q: Word, g: Word): (w: Word)
    requires |g| > 0
    ensures |w| == |q| + |g| - 1
    decreases |q|
  {
    if q == [] then Zeros(|g| - 1)
    else
      var n := |q| - 1;
      Xor(Times(q[..n], g) + [false], Zeros(n) + Scaled(q[n], g))
  }

  lemma {:induction false} TimesXor(a: Word, b: Word, g: Word)
    requires |g| > 0 && |a| == |b|
    ensures Times(Xor(a, b), g) == Xor(Times(a, g), Times(b, g))
    decreases |a|
  {
    if a != [] {
      var n := |a| - 1;
      TimesXor(a[..n], b[..n], g);
      assert Xor(a, b)[..n] == Xor(a[..n], b[..n]);
      TermsXor(Times(a[..n], g), Times(b[..n], g), a[n], b[n], n, g);
    }
  }

  lemma TermsXor(x: Word, y: Word, s: bool, t: bool, n: nat, g: Word)
    requires |g| > 0 && |x| == |y| == n + |g| - 1
    ensures Xor(Xor(x, y) + [false], Zeros(n) + Scaled(s != t, g))
         == Xor(Xor(x + [false], Zeros(n) + Scaled(s, g)), Xor(y + [false], Zeros(n) + Scaled(t, g)))
  {
  }

  lemma {:induction false} TimesZeros(m: nat, g: Word)
    requires |g| > 0
    ensures Times(Zeros(m), g) == Zeros(m + |g| - 1)
    decreases m
  {
    if m > 0 {
      assert Zeros(m)[..m - 1] == Zeros(m - 1);
      TimesZeros(m - 1, g);
    }
  }

  /** A multiple of a polynomial is zero or has at least its degree. */
  lemma {:induction false} TimesTop(q: Word, g: Word)
    requires |g| > 0 && g[0] && Times(q, g)[..|q|] == Zeros(|q|)
    ensures q == Zeros(|q|)
    decreases |q|
  {
    if q != [] {
      var n := |q| - 1;
      var t := Times(q[..n], g);
      TopOfSum(t, q[n], n, g);
      TimesTop(q[..n], g);
      TimesZeros(n, g);
      assert q == q[..n] + [q[n]];
    }
  }

  lemma TopOfSum(t: Word, b: bool, n: nat, g: Word)
    requires |g| > 0 && g[0] && |t| == n + |g| - 1
    requires Xor(t + [false], Zeros(n) + Scaled(b, g))[..n + 1] == Zeros(n + 1)
    ensures t[..n] == Zeros(n) && (t == Zeros(n + |g| - 1) ==> !b)
  {
    var s := Xor(t + [false], Zeros(n) + Scaled(b, g));
    forall i | 0 <= i < n ensures !t[i] {
      assert s[..n + 1][i] == s[i] == (t + [false])[i];
    }
    assert s[..n + 1][n] == s[n];
  }

  // ---- The division ----

  /** The initial remainder `r` is added to the top of the message bits, to which as many zeros are appended as the
      remainder has bits; that is `q` times x^n + p, plus `s`. */
  ghost predicate Divides(p: Word, r: Word, bits: Word, q: Word, s: Word)
    requires |p| == |r| > 0
  {
    && |q| == |bits| && |s| == |p|
    && Xor(Times(q, [true] + p), Zeros(|bits|) + s) == Xor(bits + Zeros(|p|), r + Zeros(|bits|))
  }

  lemma {:induction false} DivideDivides(p: Word, r: Word, bits: Word) returns (q: Word)
    requires |p| == |r| > 0
    ensures Divides(p, r, bits, q, Divide(p, r, bits))
    decreases |bits|
  {
    if bits == [] {
      q := [];
      assert Xor(Zeros(|p|), [] + r) == Xor([] + Zeros(|p|), r + []);
    } else {
      var m := |bits| - 1;
      var c, b := bits[..m], bits[m];
      assert bits == c + [b];
      q := DivideDivides(p, r, c);
      var t := Divide(p, r, c);
      DivideAppend(p, r, c, [b]);
      assert [b][1..] == [];
      var f := [t[0] != b] + t[1..];
      assert Divide(p, t, [b]) == Step(p, f);
      NextDigit(p, r, c, b, q, t);
      q := q + [t[0] != b];
    }
  }

  lemma NextDigit(p: Word, r: Word, c: Word, b: bool, q: Word, t: Word)
    requires |p| == |r| > 0 && Divides(p, r, c, q, t)
    ensures Divides(p, r, c + [b], q + [t[0] != b], Step(p, [t[0] != b] + t[1..]))
  {
    hide Xor, Zeros, Scaled, Step, Times;
    var d := t[0] != b;
    var s, g := Step(p, [d] + t[1..]), [true] + p;
    StepIsSubtraction(p, t, b);
    TimesLast(q, d, g);
    ShiftedSum(Times(q, g), Scaled(d, g), t, s, b, |c|);
    ShiftedInput(c, b, r, |p|);
  }

  lemma TimesLast(q: Word, t: bool, g: Word)
    requires |g| > 0
    ensures Times(q + [t], g) == Xor(Times(q, g) + [false], Zeros(|q|) + Scaled(t, g))
  {
    assert (q + [t])[..|q|] == q;
  }

  /** One step: the remainder times x plus the next bit, less the polynomial when its degree is reached. */
  lemma StepIsSubtraction(p: Word, t: Word, b: bool)
    requires |p| == |t| > 0
    ensures var d := t[0] != b;
            Xor(Scaled(d, [true] + p), [false] + Step(p, [d] + t[1..])) == Xor(t + [false], [b] + Zeros(|p|))
  {
    var d := t[0] != b;
    var s := Step(p, [d] + t[1..]);
    var l, r := Xor(Scaled(d, [true] + p), [false] + s), Xor(t + [false], [b] + Zeros(|p|));
    StepAt(p, d, t);
    hide Step;
    forall i | 0 <= i < |l| ensures l[i] == r[i] {
      if i > 0 {
        assert s[i - 1] == ((t[1..] + [false])[i - 1] != (d && p[i - 1]));
      }
    }
  }

  lemma StepAt(p: Word, d: bool, t: Word)
    requires |p| == |t| > 0
    ensures var s, x := Step(p, [d] + t[1..]), t[1..] + [false];
            forall i :: 0 <= i < |p| ==> (s[i] <==> x[i] != (d && p[i]))
  {
    assert ([d] + t[1..])[1..] == t[1..];
  }

  lemma ShiftedSum(z: Word, x: Word, t: Word, s: Word, b: bool, m: nat)
    requires |x| == |t| + 1 && |s| == |t| && |z| == m + |t|
    requires Xor(x, [false] + s) == Xor(t + [false], [b] + Zeros(|t|))
    ensures Xor(Xor(z + [false], Zeros(m) + x), Zeros(m + 1) + s)
         == Xor(Xor(z, Zeros(m) + t) + [false], Zeros(m) + ([b] + Zeros(|t|)))
  {
    var l := Xor(Xor(z + [false], Zeros(m) + x), Zeros(m + 1) + s);
    var r := Xor(Xor(z, Zeros(m) + t) + [false], Zeros(m) + ([b] + Zeros(|t|)));
    forall i | 0 <= i < |l| ensures l[i] == r[i] {
      if i >= m {
        assert Xor(x, [false] + s)[i - m] == Xor(t + [false], [b] + Zeros(|t|))[i - m];
      }
    }
  }

  lemma ShiftedInput(c: Word, b: bool, r: Word, n: nat)
    requires |r| == n > 0
    ensures Xor(Xor(c + Zeros(n), r + Zeros(|c|)) + [false], Zeros(|c|) + ([b] + Zeros(n)))
         == Xor((c + [b]) + Zeros(n), r + Zeros(|c| + 1))
  {
  }

  /** There is one quotient and one remainder. */
  lemma DivisionIsUnique(p: Word, r: Word, bits: Word, q1: Word, s1: Word, q2: Word, s2: Word)
    requires |p| == |r| > 0 && Divides(p, r, bits, q1, s1) && Divides(p, r, bits, q2, s2)
    ensures q1 == q2 && s1 == s2
  {
    var g, m := [true] + p, |bits|;
    var t1, t2 := Times(q1, g), Times(q2, g);
    SameSum(t1, s1, t2, s2, m);
    TimesXor(q1, q2, g);
    TimesTop(Xor(q1, q2), g);
    SameWords(q1, q2);
    SameWords(s1, s2);
  }

  lemma SameSum(t1: Word, s1: Word, t2: Word, s2: Word, m: nat)
    requires |s1| == |s2| && |t1| == |t2| == m + |s1| && Xor(t1, Zeros(m) + s1) == Xor(t2, Zeros(m) + s2)
    ensures Xor(t1, t2)[..m] == Zeros(m)
    ensures t1 == t2 ==> Xor(s1, s2) == Zeros(|s1|)
  {
    var l, r := Xor(t1, Zeros(m) + s1), Xor(t2, Zeros(m) + s2);
    forall i | 0 <= i < m ensures t1[i] == t2[i] {
      assert l[i] == r[i];
    }
    if t1 == t2 {
      forall i | 0 <= i < |s1| ensures s1[i] == s2[i] {
        assert l[m + i] == r[m + i];
      }
    }
  }

  lemma SameWords(a: Word, b: Word)
    requires |a| == |b|
    ensures a == b <==> Xor(a, b) == Zeros(|a|)
  {
    if Xor(a, b) == Zeros(|a|) {
      forall i | 0 <= i < |a| ensures a[i] == b[i] {
        assert Xor(a, b)[i] == Zeros(|a|)[i];
      }
    }
  }

  /** The bit-by-bit remainder is the remainder of polynomial division, and nothing else of its width is. */
  lemma RemainderIff(p: Word, r: Word, bits: Word, s: Word)
    requires |p| == |r| > 0
    ensures s == Divide(p, r, bits) <==> exists q :: Divides(p, r, bits, q, s)
  {
    hide Divides, Divide;
    var q := DivideDivides(p, r, bits);
    forall q' | Divides(p, r, bits, q', s) ensures s == Divide(p, r, bits) {
      DivisionIsUnique(p, r, bits, q, Divide(p, r, bits), q', s);
    }
  }

  // ---- Messages of bytes ----

  /** The bits of a message in the order of their transmission: each byte from its highest bit down, or reflected
      from its lowest bit up. */
  function MessageBits(reflected: bool, msg: seq<Byte>): (w: Word)
    ensures |w| == 8 * |msg|
  {
    seq(8 * |msg|, k requires 0 <= k < 8 * |msg| => BitAt(msg[k / 8], if reflected then k % 8 else 7 - k % 8))
  }

  lemma LastByte(reflected: bool, msg: seq<Byte>)
    requires msg != []
    ensures var n := |msg| - 1;
            MessageBits(reflected, msg) == MessageBits(reflected, msg[..n]) + OrderBits(reflected, ToBits(8, msg[n]))
  {
    hide BitAt;
    var n := |msg| - 1;
    var l, x := MessageBits(reflected, msg), OrderBits(reflected, ToBits(8, msg[n]));
    forall k | 0 <= k < 8 * |msg| ensures l[k] == (MessageBits(reflected, msg[..n]) + x)[k] {
      if k >= 8 * n {
        assert k / 8 == n && k % 8 == k - 8 * n;
      }
    }
  }

  lemma {:induction false} BytesAreBits(p: Word, reflected: bool, r: Word, msg: seq<Byte>)
    requires |p| == |r| > 0
    ensures DivideBytes(p, reflected, r, msg) == Divide(p, r, MessageBits(reflected, msg))
    decreases |msg|
  {
    hide Divide, MessageBits, OrderBits, ToBits;
    if msg == [] {
      NoBits(p, reflected, r);
    } else {
      var n := |msg| - 1;
      BytesAreBits(p, reflected, r, msg[..n]);
      LastByte(reflected, msg);
      DivideAppend(p, r, MessageBits(reflected, msg[..n]), OrderBits(reflected, ToBits(8, msg[n])));
    }
  }

  lemma NoBits(p: Word, reflected: bool, r: Word)
    requires |p| == |r| > 0
    ensures Divide(p, r, MessageBits(reflected, [])) == r
  {
  }

  /** A remainder as it is given out: in either order, and masked. */
  ghost predicate GivenOut(s: Word, reflected: bool, final: Word, c: Word)
  {
    && |s| == |final| == |c|
    && forall i :: 0 <= i < |c| ==> c[i] == (s[if reflected then |c| - 1 - i else i] != final[i])
  }

  /** A code is the checksum of a message if and only if it is, as given out, the remainder of the message bits. */
  lemma ChecksumIff(p: Word, init: Word, final: Word, reflectIn: bool, reflectOut: bool, msg: seq<Byte>, c: Word)
    requires |p| == |init| == |final| > 0
    ensures c == Checksum(p, init, final, reflectIn, reflectOut, msg) <==>
              exists s, q :: Divides(p, init, MessageBits(reflectIn, msg), q, s) && GivenOut(s, reflectOut, final, c)
  {
    var bits := MessageBits(reflectIn, msg);
    var d := Divide(p, init, bits);
    BytesAreBits(p, reflectIn, init, msg);
    GivenOutIff(d, reflectOut, final, c);
    hide Divides, Divide, GivenOut, MessageBits, DivideBytes, Xor, OrderBits;
    RemainderIff(p, init, bits, d);
    forall s, q | Divides(p, init, bits, q, s) ensures s == d {
      RemainderIff(p, init, bits, s);
    }
  }

  lemma GivenOutIff(s: Word, reflected: bool, final: Word, c: Word)
    requires |s| == |final|
    ensures GivenOut(s, reflected, final, c) <==> c == Xor(OrderBits(reflected, s), final)
  {
  }

  // ---- Changes that do not go unnoticed ----

  /** The words differ, and only within `n` consecutive bits. */
  ghost predicate Burst(x: Word, y: Word, n: nat)
  {
    |x| == |y| && x != y && exists i: nat :: Window(x, y, i, n)
  }

  ghost predicate Window(x: Word, y: Word, i: nat, n: nat)
    requires |x| == |y|
  {
    i <= |x| && forall k :: 0 <= k < |x| && x[k] != y[k] ==> i <= k < i + n
  }

  lemma EntersXor(r: Word, t: Word, x: Word, y: Word)
    requires |r| == |t| > 0 && |x| == |y| > 0
    ensures [Xor(r, t)[0] != Xor(x, y)[0]] + Xor(r, t)[1..] == Xor([r[0] != x[0]] + r[1..], [t[0] != y[0]] + t[1..])
    ensures Xor(x, y)[1..] == Xor(x[1..], y[1..])
  {
    var l, m := [Xor(r, t)[0] != Xor(x, y)[0]] + Xor(r, t)[1..], Xor([r[0] != x[0]] + r[1..], [t[0] != y[0]] + t[1..]);
    forall i | 0 <= i < |r| ensures l[i] == m[i] {
    }
    forall i | 0 <= i < |x| - 1 ensures Xor(x, y)[1..][i] == Xor(x[1..], y[1..])[i] {
    }
  }

  lemma {:induction false} DivideXor(p: Word, r: Word, t: Word, x: Word, y: Word)
    requires |p| == |r| == |t| > 0 && |x| == |y|
    ensures Divide(p, Xor(r, t), Xor(x, y)) == Xor(Divide(p, r, x), Divide(p, t, y))
    decreases |x|
  {
    if x != [] {
      var a, b := [r[0] != x[0]] + r[1..], [t[0] != y[0]] + t[1..];
      EntersXor(r, t, x, y);
      hide Xor, Step;
      StepXor(p, a, b);
      DivideXor(p, Step(p, a), Step(p, b), x[1..], y[1..]);
    }
  }

  lemma ZeroBefore(p: Word, r: Word)
    requires |p| == |r| > 0 && p[|p| - 1] && Step(p, r) == Zeros(|p|)
    ensures r == Zeros(|p|)
  {
    var n, s := |p|, Step(p, r);
    assert !s[n - 1];
    assert !r[0];
    forall i | 0 < i < n ensures !r[i] {
      assert s[i - 1] == r[i];
    }
  }

  lemma StepKeepsNonZero(p: Word, r: Word)
    requires |p| == |r| > 0 && p[|p| - 1] && r != Zeros(|p|)
    ensures Step(p, r) != Zeros(|p|)
  {
    if Step(p, r) == Zeros(|p|) {
      ZeroBefore(p, r);
    }
  }

  lemma {:induction false} StepsKeepNonZero(p: Word, r: Word, k: nat)
    requires |p| == |r| > 0 && p[|p| - 1] && r != Zeros(|p|)
    ensures Steps(p, r, k) != Zeros(|p|)
    decreases k
  {
    if k > 0 {
      StepKeepsNonZero(p, r);
      StepsKeepNonZero(p, Step(p, r), k - 1);
    }
  }

  /** Zero bits in front leave a zero remainder zero. */
  lemma {:induction false} LeadingZeros(p: Word, k: nat)
    requires |p| > 0
    ensures Divide(p, Zeros(|p|), Zeros(k)) == Zeros(|p|)
    decreases k
  {
    if k > 0 {
      var z := Zeros(|p|);
      ZerosRest(k);
      ZerosRest(|p|);
      hide Zeros;
      assert [z[0] != Zeros(k)[0]] + z[1..] == z;
      LeadingZeros(p, k - 1);
    }
  }

  lemma ZerosRest(n: nat)
    requires n > 0
    ensures !Zeros(n)[0] && Zeros(n)[1..] == Zeros(n - 1) && Zeros(n)[1..] + [false] == Zeros(n)
  {
    var z, y := Zeros(n), Zeros(n)[1..] + [false];
    forall i | 0 <= i < n ensures y[i] == z[i] {
    }
  }

  /** Zero bits behind never make a remainder zero. */
  lemma {:induction false} TrailingZeros(p: Word, r: Word, k: nat)
    requires |p| == |r| > 0 && p[|p| - 1] && r != Zeros(|p|)
    ensures Divide(p, r, Zeros(k)) != Zeros(|p|)
    decreases k
  {
    if k > 0 {
      ZerosRest(k);
      hide Zeros, Step;
      assert [r[0] != Zeros(k)[0]] + r[1..] == r;
      StepKeepsNonZero(p, r);
      TrailingZeros(p, Step(p, r), k - 1);
    }
  }

  lemma ZeroStart(e: Word, k: nat)
    requires e + Zeros(k) == Zeros(|e| + k)
    ensures e == Zeros(|e|)
  {
    assert e == (e + Zeros(k))[..|e|];
  }

  lemma NonZeroStart(e: Word, k: nat)
    requires e != Zeros(|e|)
    ensures e + Zeros(k) != Zeros(|e| + k)
  {
    if e + Zeros(k) == Zeros(|e| + k) {
      ZeroStart(e, k);
    }
  }

  /** A few bits between zeros. */
  lemma BurstRemains(p: Word, a: nat, e: Word, b: nat)
    requires |p| > 0 && p[|p| - 1] && |e| <= |p| && e != Zeros(|e|)
    ensures Divide(p, Zeros(|p|), Zeros(a) + (e + Zeros(b))) != Zeros(|p|)
  {
    var z, w := Zeros(|p|), e + Zeros(|p| - |e|);
    DivideAppend(p, z, Zeros(a), e + Zeros(b));
    LeadingZeros(p, a);
    DivideAppend(p, z, e, Zeros(b));
    DivideFromZero(p, e);
    NonZeroStart(e, |p| - |e|);
    hide Divide, Steps, Zeros;
    StepsKeepNonZero(p, w, |e|);
    TrailingZeros(p, Divide(p, z, e), b);
  }

  /** When the polynomial has a constant term, words that differ within as many bits as the remainder has
      have different remainders. */
  lemma BurstChanges(p: Word, r: Word, x: Word, y: Word)
    requires |p| == |r| > 0 && p[|p| - 1] && Burst(x, y, |p|)
    ensures Divide(p, r, x) != Divide(p, r, y)
  {
    var d := Xor(x, y);
    var a, e, b := BurstParts(x, y, |p|);
    BurstRemains(p, a, e, b);
    DivideXor(p, r, r, x, y);
    hide Divide, Burst;
    SameWords(r, r);
    SameWords(Divide(p, r, x), Divide(p, r, y));
  }

  lemma BurstParts(x: Word, y: Word, n: nat) returns (a: nat, e: Word, b: nat)
    requires Burst(x, y, n)
    ensures |e| <= n && e != Zeros(|e|) && Xor(x, y) == Zeros(a) + (e + Zeros(b))
  {
    var i: nat :| Window(x, y, i, n);
    var d := Xor(x, y);
    var j := if i + n <= |x| then i + n else |x|;
    a, e, b := i, d[i..j], |x| - j;
    assert d == Zeros(a) + (e + Zeros(b));
    if e == Zeros(|e|) {
      assert d == Zeros(|d|);
      SameWords(x, y);
    }
  }

  /** Messages whose transmitted bits differ only within as many consecutive bits as the code has get different
      checksums. */
  lemma BurstChangesChecksum(p: Word, init: Word, final: Word, reflectIn: bool, reflectOut: bool, msg: seq<Byte>,
                             other: seq<Byte>)
    requires |p| == |init| == |final| > 0 && p[|p| - 1]
    requires Burst(MessageBits(reflectIn, msg), MessageBits(reflectIn, other), |p|)
    ensures Checksum(p, init, final, reflectIn, reflectOut, msg)
         != Checksum(p, init, final, reflectIn, reflectOut, other)
  {
    hide Burst, Divide, MessageBits, DivideBytes;
    BytesAreBits(p, reflectIn, init, msg);
    BytesAreBits(p, reflectIn, init, other);
    var s, t := Divide(p, init, MessageBits(reflectIn, msg)), Divide(p, init, MessageBits(reflectIn, other));
    BurstChanges(p, init, MessageBits(reflectIn, msg), MessageBits(reflectIn, other));
    GivenOutDiffers(s, t, reflectOut, final);
  }

  lemma GivenOutDiffers(s: Word, t: Word, reflected: bool, final: Word)
    requires |s| == |t| == |final| && s != t
    ensures Xor(OrderBits(reflected, s), final) != Xor(OrderBits(reflected, t), final)
  {
    XorSelf(OrderBits(reflected, s), final);
    XorSelf(OrderBits(reflected, t), final);
    MirrorTwice(s);
    MirrorTwice(t);
  }
}

/** Which messages the reader's fingerprint check lets through. */
module Fingerprints {
  import opened Bits
  import opened Options
  import opened Wire
  import opened Incremental
  import opened Sealing
  import Crc
  import CrcEngines
  import Polynomials
  import MessageBytes

  // ---- A final fingerprint validates exactly when the builder would have written the message ----

  /** The last record of a parsed body ends with the message, and its header is in front of its value. */
  lemma {:induction false} LastRecord(b: seq<Byte>, pos: nat, room: nat)
    requires pos <= |b| && ParseFrom(b, pos, room).Some? && ParseFrom(b, pos, room).value != []
    ensures var fs := ParseFrom(b, pos, room).value;
            var a := fs[|fs| - 1];
            && pos + 4 <= a.offset && EndOf(a) == |b| && a.kind < 0x1_0000 && a.size < 0x1_0000
            && b[a.offset - 4..a.offset] == PutU16(a.kind) + PutU16(a.size)
    decreases room
  {
    hide PutU16, GetU16;
    var a := NextRecord(b, pos).value;
    PutGetU16(b, pos);
    PutGetU16(b, pos + 2);
    assert b[pos..pos + 4] == b[pos..pos + 2] + b[pos + 2..pos + 4];
    if EndOf(a) < |b| {
      LastRecord(b, EndOf(a), room - 1);
    }
  }

  /** Sealing anew what precedes the last eight bytes changes at most the last four. */
  lemma SealAnew(b: seq<Byte>)
    requires |b| >= HEADER_SIZE + 8 && GetU16(b, 2) == |b| - HEADER_SIZE
    requires b[|b| - 8..|b| - 4] == PutU16(FINGERPRINT) + PutU16(4)
    ensures SealFingerprint(b[..|b| - 8]) == b[..|b| - 4] + FingerprintOf(b[..|b| - 8])
  {
    hide FingerprintOf, PutU16, GetU16;
    PutGetU16(b, 2);
    var n := |b| - 8;
    var c, d := b[..n], Extend(b[..n], FINGERPRINT, 4);
    LengthIsRight(b, c);
    assert d[..n + 4] == b[..n + 4];
    assert d[..n] == d[..n + 4][..n] == b[..n];
  }

  lemma LengthIsRight(b: seq<Byte>, c: seq<Byte>)
    requires HEADER_SIZE + 8 <= |b| < HEADER_SIZE + 0x1_0000 && c == b[..|b| - 8]
    requires b[2..4] == PutU16(|b| - HEADER_SIZE)
    requires b[|b| - 8..|b| - 4] == PutU16(FINGERPRINT) + PutU16(4)
    ensures Extend(c, FINGERPRINT, 4)[..|b| - 4] == b[..|b| - 4]
  {
    hide PutU16;
    var x := c + (PutU16(FINGERPRINT) + PutU16(4) + Blank(4));
    assert x[..2] == b[..2];
    assert x[4..|b| - 4] == b[4..|b| - 4] by {
      assert x[4..|b| - 8] == b[4..|b| - 8];
      assert x[|b| - 8..|b| - 4] == b[|b| - 8..|b| - 4];
      assert b[4..|b| - 4] == b[4..|b| - 8] + b[|b| - 8..|b| - 4];
      assert x[4..|b| - 4] == x[4..|b| - 8] + x[|b| - 8..|b| - 4];
    }
    assert b[..|b| - 4] == b[..2] + b[2..4] + b[4..|b| - 4];
  }

  /** When a four-byte fingerprint is the last attribute, as it must be, the message is let through if and
      only if it is what the builder writes around the bytes before it. */
  lemma FinalFingerprintIff(b: seq<Byte>)
    requires FinalFingerprint(b)
    ensures |b| >= HEADER_SIZE + 8 && Usable(b, OneShot(true, b).attributes)
    ensures FingerprintValid(b, OneShot(true, b).attributes) <==> b == SealFingerprint(b[..|b| - 8])
  {
    hide OneShot, ParseFrom, ReadHeader, LastIndex, FingerprintOf, SealFingerprint, PutU16, GetU16, Usable;
    AcceptedUsable(true, b);
    AcceptedIffParsed(true, b);
    HeaderLength(b);
    LastRecord(b, HEADER_SIZE, MAX_ATTRIBUTES);
    SealAnew(b);
    var n := |b| - 4;
    assert b[n..n + 4] == b[n..];
    assert b == b[..n] + b[n..];
    assert (b[..n] + FingerprintOf(b[..n - 4]))[n..] == FingerprintOf(b[..n - 4]);
  }

  // ---- The fingerprint, bit by bit ----

  /** x^32 + x^26 + x^23 + x^22 + x^16 + x^12 + x^11 + x^10 + x^8 + x^7 + x^5 + x^4 + x^2 + x + 1. */
  const EXPONENTS: set<nat> := {26, 23, 22, 16, 12, 11, 10, 8, 7, 5, 4, 2, 1, 0}

  const STUN: seq<Byte> := [0x53, 0x54, 0x55, 0x4E]

  /** The bits of a number by its octets, from the lowest. */
  lemma OctetBit(v: nat, k: nat)
    ensures BitAt(v, k) <==> BitAt(v / Pow2(8 * (k / 8)) % 256, k % 8)
  {
    var u := v / Pow2(8 * (k / 8));
    MessageBytes.BitShift(v, 8 * (k / 8), k % 8);
    LowOctet(u, k % 8);
  }

  lemma LowOctet(u: nat, k: nat)
    requires k < 8
    ensures BitAt(u, k) <==> BitAt(u % 256, k)
  {
    hide BitAt;
    assert Pow2(8) == 256;
    MessageBytes.ValueOfLow(8, u);
    BitsOfValue(ToBits(8, u));
    assert ToBits(8, u)[7 - k] == ToBits(8, u % 256)[7 - k];
  }

  lemma OctetPowers()
    ensures Pow2(0) == 1 && Pow2(8) == 0x100 && Pow2(16) == 0x1_0000 && Pow2(24) == 0x100_0000
  {
    assert Pow2(8) == 0x100;
    assert Pow2(12) == 0x1000;
    assert Pow2(16) == 0x1_0000;
    assert Pow2(20) == 0x10_0000;
  }

  lemma PolynomialOctets(j: nat)
    requires j < 4
    ensures 0x04C1_1DB7 / Pow2(8 * j) % 256 == [0xB7, 0x1D, 0xC1, 0x04][j]
  {
    OctetPowers();
    hide Pow2;
    assert j == 0 || j == 1 || j == 2 || j == 3;
    assert 0x04C1_1DB7 / 0x1_0000 % 256 == [0xB7, 0x1D, 0xC1, 0x04][2];
  }

  lemma MaskOctets(j: nat)
    requires j < 4
    ensures FINGERPRINT_XOR / Pow2(8 * j) % 256 == STUN[3 - j]
  {
    OctetPowers();
    hide Pow2;
    assert j == 0 || j == 1 || j == 2 || j == 3;
    assert FINGERPRINT_XOR / 0x1_0000 % 256 == STUN[1];
  }

  lemma PolynomialIs(k: nat)
    requires k < 32
    ensures CrcEngines.POLY32[31 - k] <==> k in EXPONENTS
  {
    var w := CrcEngines.POLY32;
    assert w[31 - k] == BitAt(0x04C1_1DB7, k);
    hide BitAt, Pow2;
    OctetBit(0x04C1_1DB7, k);
    PolynomialOctets(k / 8);
    var b := [0xB7, 0x1D, 0xC1, 0x04][k / 8];
    OctetExponents(k / 8, k % 8, b);
    assert 8 * (k / 8) + k % 8 == k;
  }

  lemma OctetExponents(j: nat, i: nat, b: nat)
    requires j < 4 && i < 8 && b == [0xB7, 0x1D, 0xC1, 0x04][j]
    ensures BitAt(b, i) <==> 8 * j + i in EXPONENTS
  {
    hide BitAt;
    EightBits(b);
  }

  lemma MaskIs(k: nat)
    requires k < 32
    ensures BitAt(FINGERPRINT_XOR, k) <==> BitAt(STUN[3 - k / 8], k % 8)
  {
    hide BitAt, Pow2;
    OctetBit(FINGERPRINT_XOR, k);
    MaskOctets(k / 8);
  }

  lemma OnesOctets(j: nat)
    requires j < 4
    ensures 0xFFFF_FFFF / Pow2(8 * j) % 256 == 255
  {
    OctetPowers();
    hide Pow2;
    assert j == 0 || j == 1 || j == 2 || j == 3;
    assert 0xFFFF_FFFF / 0x1_0000 % 256 == 255;
  }

  lemma OnesAre(i: nat)
    requires i < 32
    ensures CrcEngines.ONES32[i]
  {
    var w := CrcEngines.ONES32;
    assert w[i] == BitAt(0xFFFF_FFFF, 31 - i);
    hide BitAt, Pow2;
    OctetBit(0xFFFF_FFFF, 31 - i);
    OnesOctets((31 - i) / 8);
    AllOnes((31 - i) % 8);
  }

  lemma AllOnes(k: nat)
    requires k < 8
    ensures BitAt(255, k)
  {
    hide BitAt;
    EightBits(255);
  }

  lemma {:induction false} BitsAreMessage(msg: seq<Byte>)
    ensures Crc.BitsOf(msg) == Polynomials.MessageBits(false, msg)
    decreases |msg|
  {
    hide Polynomials.MessageBits, ToBits;
    if msg == [] {
      assert Polynomials.MessageBits(false, msg) == [];
    } else {
      BitsAreMessage(msg[..|msg| - 1]);
      Polynomials.LastByte(false, msg);
    }
  }

  /** The four bytes are the remainder `s`, last bit first, inverted and masked with the letters STUN. */
  ghost predicate MaskedRemainder(f: seq<Byte>, s: Word)
  {
    && |f| == 4 && |s| == 32
    && forall i :: 0 <= i < 32 ==>
         (Polynomials.MessageBits(false, f)[i] <==> (s[31 - i] == Polynomials.MessageBits(false, STUN)[i]))
  }

  /** The fingerprint of some bytes: what is left when their bits, the first 32 inverted, are divided by the
      polynomial whose exponents PolynomialIs gives. */
  lemma FingerprintIff(b: seq<Byte>, f: seq<Byte>)
    ensures f == FingerprintOf(b) <==>
              exists s, q :: MaskedRemainder(f, s)
                             && Polynomials.Divides(CrcEngines.POLY32, CrcEngines.ONES32,
                                                    Polynomials.MessageBits(true, b), q, s)
    ensures |CrcEngines.ONES32| == 32 && forall i :: 0 <= i < 32 ==> CrcEngines.ONES32[i]
  {
    forall i | 0 <= i < 32 ensures CrcEngines.ONES32[i] {
      OnesAre(i);
    }
    hide Polynomials.Divides, Polynomials.MessageBits, Crc.Checksum, MaskedRemainder, Crc.BytesOf;
    var p, o := CrcEngines.POLY32, CrcEngines.ONES32;
    var bits := Polynomials.MessageBits(true, b);
    var d := Crc.Divide(p, o, bits);
    Polynomials.RemainderIff(p, o, bits, d);
    forall s, q | Polynomials.Divides(p, o, bits, q, s) ensures s == d {
      Polynomials.RemainderIff(p, o, bits, s);
    }
    MaskedIff(b, f, d);
  }

  lemma MaskedIff(b: seq<Byte>, f: seq<Byte>, d: Word)
    requires d == Crc.Divide(CrcEngines.POLY32, CrcEngines.ONES32, Polynomials.MessageBits(true, b))
    ensures f == FingerprintOf(b) <==> MaskedRemainder(f, d)
  {
    hide Polynomials.MessageBits, Crc.BytesOf, Crc.Divide, Crc.DivideBytes, ToBits, Crc.BitsOf;
    Polynomials.BytesAreBits(CrcEngines.POLY32, true, CrcEngines.ONES32, b);
    var c, m := CrcEngines.Crc32(b), ToBits(32, FINGERPRINT_XOR);
    forall i | 0 <= i < 32 ensures c[i] == !d[31 - i] && m[i] == Polynomials.MessageBits(false, STUN)[i] {
      OnesAre(i);
      StunBit(i);
    }
    BitsAreMessage(f);
    BitsAreMessage(FingerprintOf(b));
    var g := Polynomials.MessageBits(false, FingerprintOf(b));
    assert g == Xor(c, m);
    if MaskedRemainder(f, d) {
      assert forall i :: 0 <= i < 32 ==> Polynomials.MessageBits(false, f)[i] == g[i];
      assert Polynomials.MessageBits(false, f) == g;
      SameMessage(f, FingerprintOf(b));
    }
  }

  lemma StunBit(i: nat)
    requires i < 32
    ensures ToBits(32, FINGERPRINT_XOR)[i] == Polynomials.MessageBits(false, STUN)[i]
  {
    hide BitAt;
    MaskIs(31 - i);
  }

  lemma SameMessage(x: seq<Byte>, y: seq<Byte>)
    requires |x| == |y| && Polynomials.MessageBits(false, x) == Polynomials.MessageBits(false, y)
    ensures x == y
  {
    hide BitAt;
    forall i | 0 <= i < |x| ensures x[i] == y[i] {
      forall k | 0 <= k < 8 ensures BitAt(x[i], k) == BitAt(y[i], k) {
        var n := 8 * i + (7 - k);
        assert n / 8 == i && 7 - n % 8 == k;
        assert Polynomials.MessageBits(false, x)[n] == Polynomials.MessageBits(false, y)[n];
      }
      SameBits(x[i], y[i]);
    }
  }

  // ---- What the fingerprint protects ----

  /** Bytes that differ only within 32 consecutive bits, in the order of transmission, have different fingerprints. */
  lemma BurstChangesFingerprint(b: seq<Byte>, e: seq<Byte>)
    requires Polynomials.Burst(Polynomials.MessageBits(true, b), Polynomials.MessageBits(true, e), 32)
    ensures FingerprintOf(b) != FingerprintOf(e)
  {
    hide Polynomials.Burst, Polynomials.MessageBits, Crc.Checksum, Crc.BytesOf, Crc.BitsOf, ToBits, Xor;
    Poly32Odd();
    var p, o := CrcEngines.POLY32, CrcEngines.ONES32;
    Polynomials.BurstChangesChecksum(p, o, o, true, true, b, e);
    var x, y, m := CrcEngines.Crc32(b), CrcEngines.Crc32(e), ToBits(32, FINGERPRINT_XOR);
    XorSelf(x, m);
    XorSelf(y, m);
    assert Crc.BitsOf(FingerprintOf(b)) == Xor(x, m) && Crc.BitsOf(FingerprintOf(e)) == Xor(y, m);
  }

  lemma Poly32Odd()
    ensures CrcEngines.POLY32[31]
  {
    assert CrcEngines.POLY32[31] == BitAt(0x04C1_1DB7, 0);
  }

  lemma SealEnds(b: seq<Byte>, n: nat)
    requires |b| == n + 8 >= HEADER_SIZE + 8 && b == SealFingerprint(b[..n])
    ensures b[n + 4..] == FingerprintOf(b[..n])
  {
    hide FingerprintOf, Extend;
    var d := Extend(b[..n], FINGERPRINT, 4);
    assert b[..n] == b[..n + 4][..n] == d[..n + 4][..n] == d[..n];
  }

  /** A message damaged within 32 consecutive bits in front of its final fingerprint is never let through. */
  lemma DamageIsRefused(b: seq<Byte>, e: seq<Byte>)
    requires FinalFingerprint(b) && FinalFingerprint(e) && |b| == |e| >= 8 && b[|b| - 4..] == e[|e| - 4..]
    requires Polynomials.Burst(Polynomials.MessageBits(true, b[..|b| - 8]),
                               Polynomials.MessageBits(true, e[..|e| - 8]), 32)
    requires Usable(b, OneShot(true, b).attributes) && FingerprintValid(b, OneShot(true, b).attributes)
    ensures Usable(e, OneShot(true, e).attributes) && !FingerprintValid(e, OneShot(true, e).attributes)
  {
    hide Polynomials.Burst, OneShot, FingerprintOf, FingerprintValid, SealFingerprint, LastIndex;
    FinalFingerprintIff(b);
    FinalFingerprintIff(e);
    BurstChangesFingerprint(b[..|b| - 8], e[..|e| - 8]);
    SealEnds(b, |b| - 8);
    if FingerprintValid(e, OneShot(true, e).attributes) {
      SealEnds(e, |e| - 8);
    }
  }

  /** Accepted, and its last attribute is a fingerprint of four bytes. */
  ghost predicate FinalFingerprint(b: seq<Byte>)
  {
    && OneShot(true, b).state == BodyValidated
    && var fs := OneShot(true, b).attributes;
       LastIndex(fs, FINGERPRINT) == |fs| - 1 >= 0 && fs[|fs| - 1].size == 4
  }

  lemma HeaderLength(b: seq<Byte>)
    requires |b| >= HEADER_SIZE && ReadHeader(b, true).Some?
    ensures ReadHeader(b, true).value.length == GetU16(b, 2)
  {
  }

  // ---- But one that is not last is not refused ----

  const SOFTWARE: nat := 0x8022

  /** The message with a fingerprint and, after it, an attribute without a value. */
  function Trailed(m: Message, v: seq<Byte>): Message
  {
    Plus(Plus(m, Attribute(FINGERPRINT, v)), Attribute(SOFTWARE, []))
  }

  /** Where the fingerprint is in such a message, and that nothing before its value depends on its value. */
  lemma TrailedShape(m: Message, v: seq<Byte>, w: seq<Byte>)
    requires |v| == |w| == 4 && Printable(false, Trailed(m, v)) && Printable(false, Trailed(m, w))
    ensures var b, e := Print(false, Trailed(m, v)), Print(false, Trailed(m, w));
            && |b| == |e| >= HEADER_SIZE + 8 && b[..|b| - 8] == e[..|b| - 8] && b[|b| - 8..|b| - 4] == v
  {
    hide Print, Printable, PutU16, TypeField, Flatten, ToRecords;
    TrailedBytes(m, v);
    TrailedBytes(m, w);
    var body := Flatten(ToRecords(false, m.attributes));
    var head := PutU16(TypeField(m.method_, m.cls)) + PutU16(|body| + 12) + m.tid + body
      + (PutU16(FINGERPRINT) + PutU16(4));
    HeadValueTail(head, v, PutU16(SOFTWARE) + PutU16(0));
    HeadValueTail(head, w, PutU16(SOFTWARE) + PutU16(0));
  }

  lemma HeadValueTail(head: seq<Byte>, v: seq<Byte>, tail: seq<Byte>)
    requires |v| == |tail| == 4
    ensures var b := head + v + tail; |b| == |head| + 8 && b[..|b| - 8] == head && b[|b| - 8..|b| - 4] == v
  {
  }

  lemma TrailedBytes(m: Message, v: seq<Byte>)
    requires |v| == 4 && Printable(false, Trailed(m, v))
    ensures RecordsOk(ToRecords(false, m.attributes)) && m.method_ < 0x1000 && m.cls < 4 && |m.tid| == 16
    ensures var body := Flatten(ToRecords(false, m.attributes));
            && |body| + 12 < 0x1_0000
            && Print(false, Trailed(m, v))
               == PutU16(TypeField(m.method_, m.cls)) + PutU16(|body| + 12) + m.tid + body
                  + (PutU16(FINGERPRINT) + PutU16(4)) + v + (PutU16(SOFTWARE) + PutU16(0))
  {
    hide Flatten, TypeField, PutU16, RecordOk, ToRecord, ToRecords;
    var f, e := Attribute(FINGERPRINT, v), Attribute(SOFTWARE, []);
    PlusRecords(false, Plus(m, f), e);
    PlusRecords(false, m, f);
    PlainRecord(false, f);
    PlainRecord(false, e);
  }

  /** For every message with room for both: with the right value, an accepted message whose fingerprint is
      not last is let through. */
  lemma NonFinalFingerprintPasses(m: Message) returns (b: seq<Byte>)
    requires Printable(false, Trailed(m, Blank(4)))
    ensures var r := OneShot(true, b);
            && r.state == BodyValidated && Usable(b, r.attributes) && FingerprintValid(b, r.attributes)
            && 0 <= LastIndex(r.attributes, FINGERPRINT) < |r.attributes| - 1
  {
    hide Print, Printable, FingerprintOf, Locate, OneShot, ToRecords;
    var blank := Print(false, Trailed(m, Blank(4)));
    var v := FingerprintOf(blank[..|blank| - 8]);
    TrailedFits(m, v);
    b := Print(false, Trailed(m, v));
    TrailedShape(m, v, Blank(4));
    TrailedLocated(m, v);
    PrintAccepted(false, Trailed(m, v));
  }

  lemma TrailedFits(m: Message, v: seq<Byte>)
    requires |v| == 4 && Printable(false, Trailed(m, Blank(4)))
    ensures Printable(false, Trailed(m, v)) && |Print(false, Trailed(m, Blank(4)))| >= HEADER_SIZE + 8
  {
    hide Printable, Print;
    var x, y := Trailed(m, Blank(4)), Trailed(m, v);
    forall i | 0 <= i < |x.attributes| ensures SameSize(x.attributes[i], y.attributes[i]) {
    }
    SameShapePrints(false, x, y);
    TrailedShape(m, Blank(4), v);
  }

  lemma TrailedLocated(m: Message, v: seq<Byte>)
    requires |v| == 4 && Printable(false, Trailed(m, v))
    ensures var b := Print(false, Trailed(m, v));
            var fs := Locate(ToRecords(false, Trailed(m, v).attributes), HEADER_SIZE);
            && |fs| >= 2 && LastIndex(fs, FINGERPRINT) == |fs| - 2
            && fs[|fs| - 2] == Located(FINGERPRINT, 4, |b| - 8)
  {
    hide Print, Printable, Locate, LastIndex, ToRecords;
    var n, f, e := Plus(m, Attribute(FINGERPRINT, v)), Attribute(FINGERPRINT, v), Attribute(SOFTWARE, []);
    PrintSizes(m, v);
    var b, c := Print(false, Trailed(m, v)), Print(false, n);
    LastAttribute(false, n, e);
    LastAttribute(false, m, f);
    var gs := Locate(ToRecords(false, m.attributes), HEADER_SIZE);
    var l, k := Located(FINGERPRINT, 4, |c| - 4), Located(SOFTWARE, 0, |b|);
    LastIndexAppend(gs, l, FINGERPRINT);
    LastIndexAppend(gs + [l], k, FINGERPRINT);
  }

  lemma PrintSizes(m: Message, v: seq<Byte>)
    requires |v| == 4 && Printable(false, Trailed(m, v))
    ensures Printable(false, Plus(m, Attribute(FINGERPRINT, v)))
    ensures |Print(false, Trailed(m, v))| == |Print(false, Plus(m, Attribute(FINGERPRINT, v)))| + 4
  {
    hide Flatten, TypeField, PutU16, RecordOk, ToRecord, ToRecords;
    var f, e := Attribute(FINGERPRINT, v), Attribute(SOFTWARE, []);
    PlusRecords(false, Plus(m, f), e);
    PlainRecord(false, e);
  }
}

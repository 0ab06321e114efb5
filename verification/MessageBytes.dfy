/** Which bytes are a STUN message and what is read from them, octet by octet (section 6 of RFC 5389). */
module MessageBytes {
  import opened Arithmetic
  import opened Bits
  import opened Options
  import opened Wire
  import opened Incremental

  // ---- Numbers from slices of words ----

  /** Without the lowest `a` bits. */
  function High(v: nat, a: nat): nat
  {
    Quotient(v, Pow2(a))
  }

  function Quotient(v: nat, d: nat): nat
    requires d > 0
  {
    v / d
  }

  lemma {:induction false} BitShift(v: nat, a: nat, k: nat)
    ensures BitAt(High(v, a), k) <==> BitAt(v, a + k)
    decreases a
  {
    if a > 0 {
      HalfThenDivide(v, Pow2(a - 1));
      BitShift(v / 2, a - 1, k);
    }
  }

  lemma SliceOfBits(n: nat, v: nat, i: nat, j: nat)
    requires i <= j <= n
    ensures ToBits(n, v)[i..j] == ToBits(j - i, High(v, n - j))
  {
    hide BitAt, High;
    forall k | 0 <= k < j - i ensures ToBits(n, v)[i..j][k] == ToBits(j - i, High(v, n - j))[k] {
      BitShift(v, n - j, j - i - 1 - k);
    }
  }

  lemma LowBits(v: nat, d: nat)
    requires d > 0
    ensures v % (2 * d) == 2 * (v / 2 % d) + v % 2
  {
    var h := v / 2;
    DivMod(h, d);
    Nest(v, d, h, h / d, h % d);
    ModIs(v, 2 * d, h / d, 2 * (h % d) + v % 2);
  }

  lemma {:induction false} ValueOfLow(n: nat, v: nat)
    ensures Value(ToBits(n, v)) == v % Pow2(n)
    decreases n
  {
    if n > 0 {
      ToBitsSplit(n, v);
      ValueOfLow(n - 1, v / 2);
      LowBits(v, Pow2(n - 1));
      assert ToBits(n, v)[..n - 1] == ToBits(n - 1, v / 2);
    }
  }

  lemma {:induction false} ValueConcat(a: Word, b: Word)
    ensures Value(a + b) == Value(a) * Pow2(|b|) + Value(b)
    decreases |b|
  {
    if b == [] {
      assert a + b == a;
    } else {
      var n := |b| - 1;
      ValueConcat(a, b[..n]);
      ValueLast(a + b);
      ValueLast(b);
      assert (a + b)[..|a| + n] == a + b[..n];
      Doubled(Value(a), Pow2(n));
      hide Value;
    }
  }

  lemma ValueLast(w: Word)
    requires w != []
    ensures Value(w) == 2 * Value(w[..|w| - 1]) + if w[|w| - 1] then 1 else 0
  {
  }

  lemma Doubled(a: nat, p: nat)
    ensures a * (2 * p) == 2 * (a * p)
  {
  }

  lemma SliceValue(n: nat, v: nat, i: nat, j: nat)
    requires i <= j <= n
    ensures Value(ToBits(n, v)[i..j]) == High(v, n - j) % Pow2(j - i)
  {
    hide ToBits, Value, Pow2, High;
    SliceOfBits(n, v, i, j);
    ValueOfLow(j - i, High(v, n - j));
  }

  lemma SomePowers()
    ensures Pow2(0) == 1 && Pow2(1) == 2 && Pow2(3) == 8 && Pow2(4) == 16 && Pow2(5) == 32
    ensures Pow2(7) == 128 && Pow2(8) == 256 && Pow2(9) == 512
  {
  }

  /** The bits of the type field, as numbers. */
  lemma TypeParts(t: nat)
    requires t < 0x4000
    ensures MethodOf(t) == t / 512 % 32 * 128 + t / 32 % 8 * 16 + t % 16
    ensures ClassOf(t) == t / 256 % 2 * 2 + t / 16 % 2
  {
    hide ToBits, Value;
    var w := ToBits(14, t);
    SomePowers();
    SliceValue(14, t, 0, 5);
    SliceValue(14, t, 6, 9);
    SliceValue(14, t, 10, 14);
    SliceValue(14, t, 5, 6);
    SliceValue(14, t, 9, 10);
    hide Pow2;
    ValueConcat(w[..5], w[6..9]);
    ValueConcat(w[..5] + w[6..9], w[10..]);
    ValueConcat(w[5..6], w[9..10]);
    assert w[0..5] == w[..5] && w[10..14] == w[10..];
  }

  /** The method in two octets of a message: its lowest four bits, three, and five. */
  function MethodFrom(x: nat, y: nat): nat
  {
    y % 16 + y / 32 * 16 + x / 2 * 128
  }

  /** The class: the bits between. */
  function ClassFrom(x: nat, y: nat): nat
  {
    x % 2 * 2 + y / 16 % 2
  }

  /** The same from the two octets. */
  lemma TypeOctets(x: Byte, y: Byte)
    requires x < 64
    ensures MethodOf(256 * x + y) == MethodFrom(x, y)
    ensures ClassOf(256 * x + y) == ClassFrom(x, y)
  {
    hide MethodOf, ClassOf;
    var t := 256 * x + y;
    TypeParts(t);
    Split(t, 512, x / 2, x % 2 * 256 + y);
    Split(t, 256, x, y);
    Split(t, 32, 8 * x + y / 32, y % 32);
    Split(t, 16, 16 * x + y / 16, y % 16);
    Remainders(x, y);
  }

  lemma Split(t: nat, d: nat, q: nat, r: nat)
    requires d > 0 && r < d && t == q * d + r
    ensures t / d == q && t % d == r
  {
    QuotientIs(t, d, q, r);
    ModIs(t, d, q, r);
  }

  lemma Remainders(x: nat, y: nat)
    requires x < 64 && y < 256
    ensures x / 2 % 32 == x / 2 && (8 * x + y / 32) % 8 == y / 32 && (16 * x + y / 16) % 2 == y / 16 % 2
  {
    ModIs(8 * x + y / 32, 8, x, y / 32);
  }

  // ---- The header ----

  /** The length announced. */
  function Announced(b: seq<Byte>): nat
    requires |b| >= 20
  {
    256 * b[2] as int + b[3] as int
  }

  /** The two highest bits are zero, the body is announced to be at most 800 bytes in units of four, and the cookie
      is there unless it may be missing. */
  ghost predicate HeaderHolds(b: seq<Byte>, allowLegacy: bool)
    requires |b| >= 20
  {
    && b[0] < 64 && b[3] % 4 == 0 && Announced(b) <= 800
    && (allowLegacy || b[4..8] == [0x21, 0x12, 0xA4, 0x42])
  }

  lemma HeaderIff(b: seq<Byte>, allowLegacy: bool)
    requires |b| >= 20
    ensures ReadHeader(b, allowLegacy).Some? <==> HeaderHolds(b, allowLegacy)
    ensures ReadHeader(b, allowLegacy).Some? ==>
              ReadHeader(b, allowLegacy).value
              == HeaderInfo(MethodFrom(b[0], b[1]), ClassFrom(b[0], b[1]), Announced(b), b[4..20],
                            b[4..8] != [0x21, 0x12, 0xA4, 0x42])
  {
    hide MethodOf, ClassOf;
    assert b[4..20][..4] == b[4..8];
    FourthOctet(b[2], b[3]);
    if b[0] < 64 {
      TypeOctets(b[0], b[1]);
    }
  }

  lemma FourthOctet(x: Byte, y: Byte)
    ensures (256 * x + y) % 4 == y % 4
  {
  }

  // ---- The records ----

  /** A record begins at `c` and the next one at `e`. */
  ghost predicate RecordSpans(b: seq<Byte>, c: nat, e: nat)
  {
    && c + 4 <= |b|
    && var size := 256 * b[c + 2] as int + b[c + 3] as int;
       size <= 780 && e == c + 4 + size + (4 - size % 4) % 4 <= |b|
  }

  /** The places where records begin, from `pos` to the end of the message. */
  ghost predicate Cuts(b: seq<Byte>, pos: nat, cuts: seq<nat>)
  {
    && cuts != [] && cuts[0] == pos && cuts[|cuts| - 1] == |b|
    && forall i :: 0 <= i < |cuts| - 1 ==> RecordSpans(b, cuts[i], cuts[i + 1])
  }

  ghost predicate AttributesAre(b: seq<Byte>, cuts: seq<nat>, found: seq<Located>)
  {
    && |found| + 1 == |cuts|
    && forall i :: 0 <= i < |found| ==> AttributeAt(b, cuts[i], found[i])
  }

  /** The kind and size in front of the value. */
  ghost predicate AttributeAt(b: seq<Byte>, c: nat, a: Located)
  {
    && c + 4 <= |b| && a.kind == 256 * b[c] as int + b[c + 1] as int
    && a.size == 256 * b[c + 2] as int + b[c + 3] as int && a.offset == c + 4
  }

  lemma NextIff(b: seq<Byte>, pos: nat, e: nat)
    requires pos <= |b|
    ensures RecordSpans(b, pos, e) <==> NextRecord(b, pos).Some? && EndOf(NextRecord(b, pos).value) == e
    ensures NextRecord(b, pos).Some? ==> AttributeAt(b, pos, NextRecord(b, pos).value)
  {
  }

  lemma CutsRest(b: seq<Byte>, pos: nat, cuts: seq<nat>)
    requires Cuts(b, pos, cuts) && |cuts| > 1
    ensures Cuts(b, cuts[1], cuts[1..]) && RecordSpans(b, pos, cuts[1])
  {
    hide RecordSpans;
    assert RecordSpans(b, cuts[0], cuts[0 + 1]);
    forall i | 0 <= i < |cuts[1..]| - 1 ensures RecordSpans(b, cuts[1..][i], cuts[1..][i + 1]) {
      assert RecordSpans(b, cuts[i + 1], cuts[i + 1 + 1]);
    }
  }

  lemma SpanGrows(b: seq<Byte>, c: nat, e: nat)
    requires RecordSpans(b, c, e)
    ensures c < e <= |b|
  {
  }

  lemma {:induction false} CutsParse(b: seq<Byte>, pos: nat, cuts: seq<nat>, room: nat)
    requires pos <= |b| && Cuts(b, pos, cuts) && |cuts| - 1 <= room
    ensures ParseFrom(b, pos, room).Some? && AttributesAre(b, cuts, ParseFrom(b, pos, room).value)
    decreases |cuts|
  {
    hide NextRecord, RecordSpans, AttributeAt, EndOf;
    if |cuts| > 1 {
      CutsRest(b, pos, cuts);
      SpanGrows(b, pos, cuts[1]);
      NextIff(b, pos, cuts[1]);
      CutsParse(b, cuts[1], cuts[1..], room - 1);
      var rest := ParseFrom(b, cuts[1], room - 1).value;
      var a := NextRecord(b, pos).value;
      assert ParseFrom(b, pos, room) == Some([a] + rest);
      forall i | 0 <= i < |rest| + 1 ensures AttributeAt(b, cuts[i], ([a] + rest)[i]) {
        if i > 0 {
          assert AttributeAt(b, cuts[1..][i - 1], rest[i - 1]);
        }
      }
    }
  }

  lemma {:induction false} ParsedCuts(b: seq<Byte>, pos: nat, room: nat) returns (cuts: seq<nat>)
    requires pos <= |b| && ParseFrom(b, pos, room).Some?
    ensures Cuts(b, pos, cuts) && |cuts| - 1 <= room
    decreases |b| - pos
  {
    if pos == |b| {
      cuts := [pos];
    } else {
      var e := EndOf(NextRecord(b, pos).value);
      NextIff(b, pos, e);
      SpanGrows(b, pos, e);
      hide RecordSpans, NextRecord, EndOf;
      var rest := ParsedCuts(b, e, room - 1);
      cuts := [pos] + rest;
      forall i | 0 <= i < |cuts| - 1 ensures RecordSpans(b, cuts[i], cuts[i + 1]) {
        if i > 0 {
          assert RecordSpans(b, rest[i - 1], rest[i - 1 + 1]);
        }
      }
    }
  }

  ghost predicate BodyCuts(b: seq<Byte>, cuts: seq<nat>)
  {
    Cuts(b, 20, cuts) && |cuts| <= 31
  }

  // ---- Whole messages ----

  /** Which bytes are accepted: a header that holds, the length it announces, and a body of at most thirty records. */
  lemma AcceptedIffBytes(allowLegacy: bool, b: seq<Byte>)
    ensures OneShot(allowLegacy, b).state == BodyValidated <==>
              |b| >= 20 && HeaderHolds(b, allowLegacy) && |b| == 20 + Announced(b) && exists cuts :: BodyCuts(b, cuts)
  {
    AcceptedIffParsed(allowLegacy, b);
    hide OneShot, ReadHeader, ParseFrom, HeaderHolds, Cuts, Announced;
    if |b| >= 20 {
      HeaderIff(b, allowLegacy);
      if ParseFrom(b, 20, 30).Some? {
        var cuts := ParsedCuts(b, 20, 30);
        assert BodyCuts(b, cuts);
      }
      if cuts :| BodyCuts(b, cuts) {
        CutsParse(b, 20, cuts, 30);
      }
    }
  }

  /** What is read from them: method, class and transaction id from their octets, and one attribute for each record. */
  lemma AcceptedAsBytes(allowLegacy: bool, b: seq<Byte>, cuts: seq<nat>)
    requires OneShot(allowLegacy, b).state == BodyValidated && BodyCuts(b, cuts)
    ensures |b| >= 20
    ensures var r := OneShot(allowLegacy, b);
            && r.stream == b && r.header.tid == b[4..20] && r.header.length == Announced(b)
            && r.header.method_ == MethodFrom(b[0], b[1])
            && r.header.cls == ClassFrom(b[0], b[1])
            && (r.header.legacy <==> b[4..8] != [0x21, 0x12, 0xA4, 0x42])
            && AttributesAre(b, cuts, r.attributes)
  {
    AcceptedIffParsed(allowLegacy, b);
    HeaderIff(b, allowLegacy);
    hide OneShot, ReadHeader, ParseFrom, HeaderHolds, Cuts, Announced, AttributesAre;
    CutsParse(b, 20, cuts, 30);
  }

  /** In every state of the reader, whatever the chunks: what the bytes so far must be. */
  lemma StateFromBytes(allowLegacy: bool, chunks: seq<seq<Byte>>)
    ensures var b, state := Concat(chunks), FeedAll(Fresh(allowLegacy), chunks).state;
            && (state == HeaderNotRead <==> |b| < 20)
            && (state == HeaderValidated <==>
                  |b| >= 20 && HeaderHolds(b, allowLegacy) && |b| < 20 + Announced(b))
            && (state == BodyValidated <==>
                  |b| >= 20 && HeaderHolds(b, allowLegacy) && |b| == 20 + Announced(b)
                  && exists cuts :: BodyCuts(b, cuts))
  {
    var b := Concat(chunks);
    ChunkingIsIrrelevant(allowLegacy, chunks);
    AcceptedIffBytes(allowLegacy, b);
    hide FeedAll, Concat, BodyCuts, ParseFrom;
    StateOfOneShot(allowLegacy, b);
  }

  lemma StateOfOneShot(allowLegacy: bool, b: seq<Byte>)
    ensures OneShot(allowLegacy, b).state == HeaderNotRead <==> |b| < 20
    ensures OneShot(allowLegacy, b).state == HeaderValidated <==>
              |b| >= 20 && HeaderHolds(b, allowLegacy) && |b| < 20 + Announced(b)
  {
    hide OneShot, ReadHeader, HeaderHolds, Announced;
    if |b| < 20 {
      ShortState(allowLegacy, b);
    } else {
      LongState(allowLegacy, b);
      HeaderIff(b, allowLegacy);
    }
  }

  lemma ShortState(allowLegacy: bool, b: seq<Byte>)
    requires |b| < 20
    ensures OneShot(allowLegacy, b).state == HeaderNotRead
  {
    hide ReadHeader, ParseFrom;
    assert [] + b == b;
  }

  lemma LongState(allowLegacy: bool, b: seq<Byte>)
    requires |b| >= 20
    ensures OneShot(allowLegacy, b).state != HeaderNotRead
    ensures OneShot(allowLegacy, b).state == HeaderValidated <==>
              ReadHeader(b, allowLegacy).Some? && |b| < 20 + ReadHeader(b, allowLegacy).value.length
  {
    hide ReadHeader, ParseFrom;
    assert [] + b == b;
    if |b| == 20 {
      EmptyBody(b);
    }
  }
}

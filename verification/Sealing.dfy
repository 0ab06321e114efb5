/** MESSAGE-INTEGRITY and FINGERPRINT (sections 15.4 and 15.5 of RFC 5389): how the builder adds
    them and how the reader checks them. The keyed hash is any function with 20-byte results. */
module Sealing {
  import opened Bits
  import opened Options
  import opened Wire
  import opened Incremental
  import Crc
  import CrcEngines

  const INTEGRITY: nat := 0x0008
  const FINGERPRINT: nat := 0x8028
  const FINGERPRINT_XOR: nat := 0x5354_554e

  type Mac = s: seq<Byte> | |s| == 20 witness Blank(20)

  /** Key and text to keyed hash. */
  type MacFn = (seq<Byte>, seq<Byte>) -> Mac

  // ---- The builder's side, on the bytes written so far ----

  /** The length field is set to what follows the header. */
  function WithLength(c: seq<Byte>): (d: seq<Byte>)
    requires |c| >= HEADER_SIZE
    ensures |d| == |c|
  {
    c[..2] + PutU16((|c| - HEADER_SIZE) % 0x1_0000) + c[4..]
  }

  function Extend(c: seq<Byte>, kind: nat, size: nat): (d: seq<Byte>)
    requires |c| >= HEADER_SIZE && kind < 0x1_0000 && size < 0x1_0000
    ensures |d| == |c| + 4 + size
  {
    WithLength(c + (PutU16(kind) + PutU16(size) + Blank(size)))
  }

  /** A zeroed value is appended, the length fixed, and everything before the attribute hashed. */
  function SealIntegrity(hmac: MacFn, key: seq<Byte>, c: seq<Byte>): (b: seq<Byte>)
    requires |c| >= HEADER_SIZE
    ensures |b| == |c| + 24
  {
    var d := Extend(c, INTEGRITY, 20);
    d[..|c| + 4] + hmac(key, d[..|c|])
  }

  function FingerprintOf(b: seq<Byte>): (f: seq<Byte>)
    ensures |f| == 4
  {
    Crc.BytesOf(Xor(CrcEngines.Crc32(b), ToBits(32, FINGERPRINT_XOR)))
  }

  /** The fingerprint by the table-driven code. */
  method ComputeFingerprint(b: seq<Byte>) returns (f: seq<Byte>)
    ensures f == FingerprintOf(b)
  {
    hide Crc.Checksum, Crc.BytesOf;
    var crc := CrcEngines.FastCrc(CrcEngines.POLY32, CrcEngines.ONES32, CrcEngines.ONES32, true, true, b);
    f := Crc.BytesOf(Xor(crc, ToBits(32, FINGERPRINT_XOR)));
  }

  function SealFingerprint(c: seq<Byte>): (b: seq<Byte>)
    requires |c| >= HEADER_SIZE
    ensures |b| == |c| + 8
  {
    var d := Extend(c, FINGERPRINT, 4);
    d[..|c| + 4] + FingerprintOf(d[..|c|])
  }

  // ---- The reader's side, on an accepted message ----

  /** The last attribute of a kind, or -1. */
  function LastIndex(attributes: seq<Located>, kind: nat): (i: int)
    ensures -1 <= i < |attributes|
    ensures i >= 0 ==> attributes[i].kind == kind
    ensures forall j :: i < j < |attributes| ==> attributes[j].kind != kind
  {
    var kinds := seq(|attributes|, i requires 0 <= i < |attributes| => attributes[i].kind);
    assert forall j :: 0 <= j < |attributes| ==> kinds[j] == attributes[j].kind;
    LastAt(kinds, kind)
  }

  /** What the reader rehashes: the length field without the fingerprint that may follow. */
  function Rehashed(b: seq<Byte>, a: Located, adjust: bool): seq<Byte>
    requires HEADER_SIZE <= a.offset - 4 && a.offset <= |b|
  {
    var length := GetU16(b, 2);
    b[..2] + PutU16((if adjust then length - 8 else length) % 0x1_0000) + b[4..a.offset - 4]
  }

  predicate IntegrityValid(hmac: MacFn, key: seq<Byte>, b: seq<Byte>, attributes: seq<Located>)
    requires forall i :: 0 <= i < |attributes| ==>
               HEADER_SIZE + 4 <= attributes[i].offset && attributes[i].offset + attributes[i].size <= |b|
  {
    var last := |attributes| - 1;
    var i := LastIndex(attributes, INTEGRITY);
    if i == -1 || key == [] then false
    else
      var a := attributes[i];
      && a.size == 20
      && (i == last || (i == last - 1 && LastIndex(attributes, FINGERPRINT) == last))
      && hmac(key, Rehashed(b, a, i == last - 1)) == b[a.offset..a.offset + 20]
  }

  predicate FingerprintValid(b: seq<Byte>, attributes: seq<Located>)
    requires |b| >= HEADER_SIZE
    requires forall i :: 0 <= i < |attributes| ==> attributes[i].offset + attributes[i].size <= |b|
  {
    var i := LastIndex(attributes, FINGERPRINT);
    && i != -1 && attributes[i].size == 4
    && FingerprintOf(b[..|b| - 8]) == b[attributes[i].offset..attributes[i].offset + 4]
  }

  // ---- Messages under construction ----

  /** `c` is message `m` up to its length field. */
  predicate Drafts(c: seq<Byte>, legacy: bool, m: Message)
  {
    && |c| >= HEADER_SIZE && Printable(legacy, m)
    && c[..2] == PutU16(TypeField(m.method_, m.cls)) && c[4..20] == m.tid
    && c[20..] == Flatten(ToRecords(legacy, m.attributes))
  }

  /** Fixing the length field of a draft completes the message. */
  lemma DraftPrints(c: seq<Byte>, legacy: bool, m: Message)
    requires Drafts(c, legacy, m)
    ensures WithLength(c) == Print(legacy, m)
  {
    hide Flatten, ToRecords, TypeField, PutU16;
    assert c[4..] == c[4..20] + c[20..];
  }

  lemma PrintDrafts(legacy: bool, m: Message)
    requires Printable(legacy, m)
    ensures Drafts(Print(legacy, m), legacy, m)
  {
    hide Flatten, ToRecords, TypeField, PutU16;
  }

  function Plus(m: Message, a: Attribute): Message {
    m.(attributes := m.attributes + [a])
  }

  lemma {:induction false} FlattenAppend(rs: seq<Record>, r: Record)
    requires RecordsOk(rs) && RecordOk(r) && RecordsOk(rs + [r])
    ensures Flatten(rs + [r]) == Flatten(rs) + RecordBytes(r)
    decreases |rs|
  {
    hide RecordBytes, RecordOk;
    if rs == [] {
      assert rs + [r] == [r] && [r][1..] == [];
    } else {
      assert (rs + [r])[1..] == rs[1..] + [r];
      FlattenAppend(rs[1..], r);
    }
  }

  lemma ToRecordsAppend(legacy: bool, attributes: seq<Attribute>, a: Attribute)
    ensures ToRecords(legacy, attributes + [a]) == ToRecords(legacy, attributes) + [ToRecord(legacy, a)]
  {
  }

  lemma PlusRecords(legacy: bool, m: Message, a: Attribute)
    requires Printable(legacy, Plus(m, a))
    ensures RecordOk(ToRecord(legacy, a)) && RecordsOk(ToRecords(legacy, m.attributes)) && Printable(legacy, m)
    ensures RecordsOk(ToRecords(legacy, m.attributes) + [ToRecord(legacy, a)])
    ensures ToRecords(legacy, Plus(m, a).attributes) == ToRecords(legacy, m.attributes) + [ToRecord(legacy, a)]
    ensures Flatten(ToRecords(legacy, Plus(m, a).attributes))
         == Flatten(ToRecords(legacy, m.attributes)) + RecordBytes(ToRecord(legacy, a))
  {
    hide Flatten, RecordBytes, RecordOk, ToRecord;
    ToRecordsAppend(legacy, m.attributes, a);
    var rs, r := ToRecords(legacy, m.attributes), ToRecord(legacy, a);
    assert (rs + [r])[|rs|] == r && forall i :: 0 <= i < |rs| ==> (rs + [r])[i] == rs[i];
    FlattenAppend(ToRecords(legacy, m.attributes), ToRecord(legacy, a));
  }

  /** Appending a record to a draft drafts the message with one more attribute. */
  lemma DraftPlus(c: seq<Byte>, legacy: bool, m: Message, a: Attribute)
    requires Drafts(c, legacy, m) && Printable(legacy, Plus(m, a))
    ensures RecordOk(ToRecord(legacy, a)) && Drafts(c + RecordBytes(ToRecord(legacy, a)), legacy, Plus(m, a))
  {
    hide Flatten, RecordBytes, RecordOk, ToRecord, ToRecords, TypeField, PutU16, Printable;
    PlusRecords(legacy, m, a);
    var e := c + RecordBytes(ToRecord(legacy, a));
    assert e[..2] == c[..2] && e[4..20] == c[4..20] && e[20..] == c[20..] + RecordBytes(ToRecord(legacy, a));
  }

  /** The bytes of an attribute that needs no padding are the same in both modes. */
  lemma PlainRecord(legacy: bool, a: Attribute)
    requires |a.value| % 4 == 0
    ensures ToRecord(legacy, a) == Record(a.kind, a.value, [])
    ensures RecordOk(ToRecord(legacy, a)) ==>
              RecordBytes(ToRecord(legacy, a)) == PutU16(a.kind) + PutU16(|a.value|) + a.value
  {
    assert Blank(0) == [] && a.value + [] == a.value;
  }

  lemma WithLengthTail(c: seq<Byte>, v: seq<Byte>, w: seq<Byte>)
    requires |c| >= HEADER_SIZE && |v| == |w|
    ensures WithLength(c + w) == WithLength(c + v)[..|c|] + w
    ensures WithLength(c + w)[..|c|] == WithLength(c + v)[..|c|]
  {
  }

  /** Filling in the value of an appended blank attribute gives the message with that attribute. */
  lemma SealPrints(c: seq<Byte>, legacy: bool, m: Message, a: Attribute)
    requires Drafts(c, legacy, m) && Printable(legacy, Plus(m, a))
    requires |a.value| % 4 == 0 && |a.value| < 0x1_0000 && a.kind < 0x1_0000
    ensures var d := Extend(c, a.kind, |a.value|);
            && d[..|c| + 4] + a.value == Print(legacy, Plus(m, a))
            && d[..|c|] == Print(legacy, Plus(m, a))[..|c|]
  {
    assert |c| >= HEADER_SIZE;
    hide Drafts, Print, Printable, RecordBytes, RecordOk, ToRecord, PutU16, WithLength;
    DraftPlus(c, legacy, m, a);
    PlainRecord(legacy, a);
    var head := PutU16(a.kind) + PutU16(|a.value|);
    DraftPrints(c + (head + a.value), legacy, Plus(m, a));
    assert c + (head + a.value) == (c + head) + a.value;
    assert c + (head + Blank(|a.value|)) == (c + head) + Blank(|a.value|);
    WithLengthTail(c + head, Blank(|a.value|), a.value);
  }

  lemma {:induction false} LocateAppend(rs: seq<Record>, r: Record, pos: nat)
    requires RecordsOk(rs + [r]) && RecordsOk(rs) && RecordOk(r)
    ensures Locate(rs + [r], pos) == Locate(rs, pos) + [Located(r.kind, |r.value|, pos + |Flatten(rs)| + 4)]
    decreases |rs|
  {
    hide RecordOk, RecordBytes;
    if rs == [] {
      assert rs + [r] == [r] && [r][1..] == [];
    } else {
      var all, p := rs + [r], pos + |RecordBytes(rs[0])|;
      assert all[0] == rs[0] && all[1..] == rs[1..] + [r];
      LocateAppend(rs[1..], r, p);
      assert |Flatten(rs)| == |RecordBytes(rs[0])| + |Flatten(rs[1..])|;
      assert Locate(all, pos) == [Located(rs[0].kind, |rs[0].value|, pos + 4)] + Locate(all[1..], p);
    }
  }

  /** What an accepted message's attributes are known to satisfy. */
  predicate Usable(b: seq<Byte>, attributes: seq<Located>)
  {
    |b| >= HEADER_SIZE && forall i :: 0 <= i < |attributes| ==> Placed(b, attributes[i])
  }

  predicate Placed(b: seq<Byte>, a: Located)
  {
    HEADER_SIZE + 4 <= a.offset && a.offset + a.size <= |b|
  }

  lemma AcceptedUsable(allowLegacy: bool, b: seq<Byte>)
    requires OneShot(allowLegacy, b).state == BodyValidated
    ensures Usable(b, OneShot(allowLegacy, b).attributes)
  {
    hide OneShot, ParseFrom, ReadHeader;
    AcceptedIffParsed(allowLegacy, b);
    var fs := OneShot(allowLegacy, b).attributes;
    forall i | 0 <= i < |fs| ensures Placed(b, fs[i]) {
      ParsedInBounds(b, HEADER_SIZE, MAX_ATTRIBUTES, i);
    }
  }

  /** A printed message is accepted, and its attributes are found where they were written. */
  lemma PrintAccepted(legacy: bool, m: Message)
    requires Printable(legacy, m)
    ensures var r := OneShot(true, Print(legacy, m));
            && r.state == BodyValidated && r.stream == Print(legacy, m)
            && r.header == HeaderInfo(m.method_, m.cls, |Print(legacy, m)| - HEADER_SIZE, m.tid, m.tid[..4] != COOKIE)
            && r.attributes == Locate(ToRecords(legacy, m.attributes), HEADER_SIZE)
            && Usable(Print(legacy, m), r.attributes)
  {
    hide Print, ParseFrom, ReadHeader, Locate, Flatten, OneShot, Usable;
    var b := Print(legacy, m);
    PrintHeader(legacy, m, true);
    ParseRecords(b, HEADER_SIZE, ToRecords(legacy, m.attributes), MAX_ATTRIBUTES);
    AcceptedIffParsed(true, b);
    AcceptedUsable(true, b);
  }

  /** The last attribute of a printed message, when it needs no padding. */
  lemma LastAttribute(legacy: bool, m: Message, a: Attribute)
    requires Printable(legacy, Plus(m, a)) && |a.value| % 4 == 0
    ensures var b := Print(legacy, Plus(m, a));
            var fs := Locate(ToRecords(legacy, Plus(m, a).attributes), HEADER_SIZE);
            && RecordsOk(ToRecords(legacy, m.attributes)) && |b| >= HEADER_SIZE + 4 + |a.value|
            && fs == Locate(ToRecords(legacy, m.attributes), HEADER_SIZE)
                     + [Located(a.kind, |a.value|, |b| - |a.value|)]
            && b[|b| - |a.value|..] == a.value
  {
    hide Flatten, RecordOk, ToRecord, ToRecords, TypeField, PutU16;
    PlusRecords(legacy, m, a);
    PlainRecord(legacy, a);
    LocateAppend(ToRecords(legacy, m.attributes), ToRecord(legacy, a), HEADER_SIZE);
    hide Locate;
  }

  // ---- Writer and checker agree ----

  lemma LastIndexAppend(fs: seq<Located>, a: Located, kind: nat)
    ensures LastIndex(fs + [a], kind) == if a.kind == kind then |fs| else LastIndex(fs, kind)
  {
    hide LastIndex;
    var gs, i, j := fs + [a], LastIndex(fs + [a], kind), LastIndex(fs, kind);
    assert forall k :: 0 <= k < |fs| ==> gs[k] == fs[k];
    assert gs[|fs|] == a;
    if j >= 0 {
      assert gs[j].kind == kind;
    }
  }

  lemma {:induction false} FlattenSize(rs: seq<Record>, qs: seq<Record>)
    requires RecordsOk(rs) && RecordsOk(qs) && |rs| == |qs|
    requires forall i :: 0 <= i < |rs| ==> |rs[i].value| == |qs[i].value|
    ensures |Flatten(rs)| == |Flatten(qs)|
    decreases |rs|
  {
    if rs != [] {
      assert RecordOk(rs[0]) && RecordOk(qs[0]);
      FlattenSize(rs[1..], qs[1..]);
    }
  }

  /** Same attribute kinds and value sizes. */
  predicate SameShape(m: Message, n: Message)
  {
    && m.method_ == n.method_ && m.cls == n.cls && |m.tid| == |n.tid| && |m.attributes| == |n.attributes|
    && forall i :: 0 <= i < |m.attributes| ==> SameSize(m.attributes[i], n.attributes[i])
  }

  predicate SameSize(a: Attribute, b: Attribute)
  {
    a.kind == b.kind && |a.value| == |b.value|
  }

  /** Whether a message can be printed depends only on the sizes of its values. */
  lemma SameShapePrints(legacy: bool, m: Message, n: Message)
    requires Printable(legacy, m) && SameShape(m, n)
    ensures Printable(legacy, n)
  {
    var rs, qs := ToRecords(legacy, m.attributes), ToRecords(legacy, n.attributes);
    forall i | 0 <= i < |qs| ensures RecordOk(qs[i]) && |qs[i].value| == |rs[i].value| {
      assert RecordOk(rs[i]) && SameSize(m.attributes[i], n.attributes[i]);
    }
    FlattenSize(rs, qs);
  }

  /** There is room for one more attribute of this kind and size. */
  predicate Fits(legacy: bool, m: Message, kind: nat, size: nat)
  {
    Printable(legacy, Plus(m, Attribute(kind, Blank(size))))
  }

  /** The draft with its fingerprint is a printed message. */
  lemma FingerprintPrints(c: seq<Byte>, legacy: bool, m: Message) returns (a: Attribute)
    requires Drafts(c, legacy, m) && Fits(legacy, m, FINGERPRINT, 4)
    ensures a.kind == FINGERPRINT && |a.value| == 4 && Printable(legacy, Plus(m, a))
    ensures SealFingerprint(c) == Print(legacy, Plus(m, a)) && a.value == FingerprintOf(SealFingerprint(c)[..|c|])
  {
    assert |c| >= HEADER_SIZE;
    hide Drafts, Print, Printable, Extend, FingerprintOf;
    var d := Extend(c, FINGERPRINT, 4);
    a := Attribute(FINGERPRINT, FingerprintOf(d[..|c|]));
    SameShapePrints(legacy, Plus(m, Attribute(FINGERPRINT, Blank(4))), Plus(m, a));
    SealPrints(c, legacy, m, a);
  }

  /** A finished FINGERPRINT always checks out. */
  lemma FingerprintAgrees(c: seq<Byte>, legacy: bool, m: Message)
    requires Drafts(c, legacy, m) && Fits(legacy, m, FINGERPRINT, 4)
    ensures var b := SealFingerprint(c);
            var r := OneShot(true, b);
            r.state == BodyValidated && Usable(b, r.attributes) && FingerprintValid(b, r.attributes)
  {
    hide Drafts, Print, Printable, FingerprintOf, Locate, OneShot, SealFingerprint;
    var a := FingerprintPrints(c, legacy, m);
    PrintAccepted(legacy, Plus(m, a));
    LastAttribute(legacy, m, a);
    var b := SealFingerprint(c);
    LastIndexAppend(Locate(ToRecords(legacy, m.attributes), HEADER_SIZE), Located(FINGERPRINT, 4, |b| - 4),
                    FINGERPRINT);
  }

  /** The draft with its integrity attribute is a printed message. */
  lemma IntegrityPrints(hmac: MacFn, key: seq<Byte>, c: seq<Byte>, legacy: bool, m: Message) returns (a: Attribute)
    requires Drafts(c, legacy, m) && Fits(legacy, m, INTEGRITY, 20)
    ensures a.kind == INTEGRITY && |a.value| == 20 && Printable(legacy, Plus(m, a))
    ensures SealIntegrity(hmac, key, c) == Print(legacy, Plus(m, a))
    ensures a.value == hmac(key, SealIntegrity(hmac, key, c)[..|c|])
  {
    assert |c| >= HEADER_SIZE;
    hide Drafts, Print, Printable, Extend;
    var d := Extend(c, INTEGRITY, 20);
    a := Attribute(INTEGRITY, hmac(key, d[..|c|]));
    SameShapePrints(legacy, Plus(m, Attribute(INTEGRITY, Blank(20))), Plus(m, a));
    SealPrints(c, legacy, m, a);
  }

  lemma PrintedLength(legacy: bool, m: Message)
    requires Printable(legacy, m)
    ensures var b := Print(legacy, m);
            GetU16(b, 2) == |b| - HEADER_SIZE <= MAX_MESSAGE_SIZE && b[2..4] == PutU16(|b| - HEADER_SIZE)
  {
    hide Flatten, TypeField, PutU16;
    var b := Print(legacy, m);
    assert b[2..4] == PutU16(|b| - HEADER_SIZE);
    GetPutU16(b, 2, |b| - HEADER_SIZE);
  }

  /** Without a fingerprint the reader rehashes exactly the bytes before the attribute. */
  lemma RehashedPlain(b: seq<Byte>, a: Located)
    requires HEADER_SIZE <= a.offset - 4 && a.offset <= |b|
    ensures Rehashed(b, a, false) == b[..a.offset - 4]
  {
    PutGetU16(b, 2);
    hide GetU16, PutU16;
    assert b[..a.offset - 4] == b[..2] + b[2..4] + b[4..a.offset - 4];
  }

  /** A message finished with MESSAGE-INTEGRITY validates under the same key. */
  lemma IntegrityAgrees(hmac: MacFn, key: seq<Byte>, c: seq<Byte>, legacy: bool, m: Message)
    requires Drafts(c, legacy, m) && Fits(legacy, m, INTEGRITY, 20) && key != []
    ensures var b := SealIntegrity(hmac, key, c);
            var r := OneShot(true, b);
            r.state == BodyValidated && Usable(b, r.attributes) && IntegrityValid(hmac, key, b, r.attributes)
  {
    hide Drafts, Print, Printable, Locate, OneShot, SealIntegrity, Rehashed;
    var a := IntegrityPrints(hmac, key, c, legacy, m);
    PrintAccepted(legacy, Plus(m, a));
    LastAttribute(legacy, m, a);
    var b := SealIntegrity(hmac, key, c);
    var l := Located(INTEGRITY, 20, |b| - 20);
    LastIndexAppend(Locate(ToRecords(legacy, m.attributes), HEADER_SIZE), l, INTEGRITY);
    RehashedPlain(b, l);
  }

  /** With a fingerprint after it, the reader undoes the eight bytes it added to the length field. */
  lemma RehashedAdjusted(b: seq<Byte>, e: seq<Byte>, a: Located)
    requires HEADER_SIZE <= a.offset - 4 && a.offset <= |b| && |e| == |b| + 8
    requires |b| - HEADER_SIZE <= MAX_MESSAGE_SIZE && e[..2] == b[..2] && e[4..|b|] == b[4..]
    requires b[2..4] == PutU16(|b| - HEADER_SIZE) && GetU16(e, 2) == |e| - HEADER_SIZE
    ensures Rehashed(e, a, true) == b[..a.offset - 4]
  {
    hide GetU16, PutU16;
    assert e[4..a.offset - 4] == e[4..|b|][..a.offset - 8] == b[4..a.offset - 4];
    assert b[..a.offset - 4] == b[..2] + b[2..4] + b[4..a.offset - 4];
  }

  lemma PlusExtends(legacy: bool, m: Message, a: Attribute)
    requires Printable(legacy, Plus(m, a)) && Printable(legacy, m)
    ensures var b, e := Print(legacy, m), Print(legacy, Plus(m, a));
            |e| >= |b| && e[..2] == b[..2] && e[4..|b|] == b[4..]
  {
    hide Flatten, ToRecord, ToRecords, TypeField, PutU16, RecordBytes, RecordOk, Printable;
    PlusRecords(legacy, m, a);
  }

  /** MESSAGE-INTEGRITY still validates, and so does the FINGERPRINT, when one follows. */
  lemma SealedBothAgree(hmac: MacFn, key: seq<Byte>, c: seq<Byte>, legacy: bool, m: Message)
    requires Drafts(c, legacy, m) && Fits(legacy, m, INTEGRITY, 20) && key != []
    requires Fits(legacy, Plus(m, Attribute(INTEGRITY, Blank(20))), FINGERPRINT, 4)
    ensures var e := SealFingerprint(SealIntegrity(hmac, key, c));
            var r := OneShot(true, e);
            && r.state == BodyValidated && Usable(e, r.attributes)
            && IntegrityValid(hmac, key, e, r.attributes) && FingerprintValid(e, r.attributes)
  {
    hide Drafts, Print, Printable, Locate, OneShot, SealIntegrity, SealFingerprint, IntegrityValid, FingerprintValid;
    hide Fits;
    var a, f := BothPrint(hmac, key, c, legacy, m);
    var m1, b := Plus(m, a), SealIntegrity(hmac, key, c);
    PrintDrafts(legacy, m1);
    FingerprintAgrees(b, legacy, m1);
    var e := SealFingerprint(b);
    PrintAccepted(legacy, Plus(m1, f));
    LastAttribute(legacy, m, a);
    LastAttribute(legacy, m1, f);
    var fs := Locate(ToRecords(legacy, m.attributes), HEADER_SIZE);
    var l, k := Located(INTEGRITY, 20, |b| - 20), Located(FINGERPRINT, 4, |e| - 4);
    BothValid(hmac, key, b, e, fs, l, k, |c|);
  }

  /** Both seals in turn print the message with both attributes; the second leaves the first's bytes. */
  lemma BothPrint(hmac: MacFn, key: seq<Byte>, c: seq<Byte>, legacy: bool, m: Message)
    returns (a: Attribute, f: Attribute)
    requires Drafts(c, legacy, m) && Fits(legacy, m, INTEGRITY, 20)
    requires Fits(legacy, Plus(m, Attribute(INTEGRITY, Blank(20))), FINGERPRINT, 4)
    ensures |c| >= HEADER_SIZE && a.kind == INTEGRITY && |a.value| == 20 && f.kind == FINGERPRINT && |f.value| == 4
    ensures Printable(legacy, Plus(m, a)) && Printable(legacy, Plus(Plus(m, a), f))
    ensures Fits(legacy, Plus(m, a), FINGERPRINT, 4)
    ensures var b := SealIntegrity(hmac, key, c);
            var e := SealFingerprint(b);
            && b == Print(legacy, Plus(m, a)) && e == Print(legacy, Plus(Plus(m, a), f))
            && a.value == hmac(key, b[..|c|])
            && |b| - HEADER_SIZE <= MAX_MESSAGE_SIZE && e[..2] == b[..2] && e[4..|b|] == b[4..]
            && b[2..4] == PutU16(|b| - HEADER_SIZE) && GetU16(e, 2) == |e| - HEADER_SIZE
  {
    assert |c| >= HEADER_SIZE;
    hide Drafts, Print, Printable, SealIntegrity, SealFingerprint, FingerprintOf, GetU16, PutU16, Fits;
    a := IntegrityPrints(hmac, key, c, legacy, m);
    var m1, b := Plus(m, a), SealIntegrity(hmac, key, c);
    PrintDrafts(legacy, m1);
    BothFit(legacy, m, a);
    f := FingerprintPrints(b, legacy, m1);
    PlusExtends(legacy, m1, f);
    PrintedLength(legacy, m1);
    PrintedLength(legacy, Plus(m1, f));
  }

  lemma BothFit(legacy: bool, m: Message, a: Attribute)
    requires Printable(legacy, Plus(m, a)) && a.kind == INTEGRITY && |a.value| == 20
    requires Fits(legacy, Plus(m, Attribute(INTEGRITY, Blank(20))), FINGERPRINT, 4)
    ensures Fits(legacy, Plus(m, a), FINGERPRINT, 4)
  {
    hide Printable;
    var z, f := Attribute(INTEGRITY, Blank(20)), Attribute(FINGERPRINT, Blank(4));
    var x, y := Plus(Plus(m, z), f), Plus(Plus(m, a), f);
    forall i | 0 <= i < |x.attributes| ensures SameSize(x.attributes[i], y.attributes[i]) {
    }
    SameShapePrints(legacy, x, y);
  }

  lemma BothValid(hmac: MacFn, key: seq<Byte>, b: seq<Byte>, e: seq<Byte>, fs: seq<Located>, l: Located, k: Located,
                  n: nat)
    requires key != [] && |b| == n + 24 >= HEADER_SIZE + 24 && |e| == |b| + 8
    requires l == Located(INTEGRITY, 20, |b| - 20) && k == Located(FINGERPRINT, 4, |e| - 4)
    requires Usable(e, fs + [l] + [k])
    requires b[|b| - 20..] == hmac(key, b[..n])
    requires |b| - HEADER_SIZE <= MAX_MESSAGE_SIZE && e[..2] == b[..2] && e[4..|b|] == b[4..]
    requires b[2..4] == PutU16(|b| - HEADER_SIZE) && GetU16(e, 2) == |e| - HEADER_SIZE
    ensures IntegrityValid(hmac, key, e, fs + [l] + [k])
  {
    hide Rehashed, PutU16, GetU16;
    LastIndexAppend(fs + [l], k, INTEGRITY);
    LastIndexAppend(fs, l, INTEGRITY);
    LastIndexAppend(fs + [l], k, FINGERPRINT);
    RehashedAdjusted(b, e, l);
    assert e[l.offset..l.offset + 20] == e[4..|b|][|b| - 24..] == b[4..][|b| - 24..] == b[|b| - 20..];
  }
}

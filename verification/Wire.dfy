/** The STUN wire format (section 6 of RFC 5389, and RFC 3489 in legacy mode), as values. */
module Wire {
  import opened Bits
  import opened Options

  const HEADER_SIZE: nat := 20
  const MAX_MESSAGE_SIZE: nat := 800
  const MAX_ATTRIBUTE_SIZE: nat := 780
  const MAX_ATTRIBUTES: nat := 30
  const COOKIE: seq<Byte> := [0x21, 0x12, 0xA4, 0x42]

  // ---- Sixteen-bit fields in network byte order ----

  function PutU16(n: nat): (b: seq<Byte>)
    requires n < 0x1_0000
    ensures |b| == 2
  {
    [n / 256, n % 256]
  }

  function GetU16(b: seq<Byte>, pos: nat): (n: nat)
    requires pos + 2 <= |b|
    ensures n < 0x1_0000
  {
    256 * (b[pos] as int) + b[pos + 1] as int
  }

  lemma GetPutU16(b: seq<Byte>, pos: nat, n: nat)
    requires n < 0x1_0000 && pos + 2 <= |b| && b[pos..pos + 2] == PutU16(n)
    ensures GetU16(b, pos) == n
  {
  }

  lemma PutGetU16(b: seq<Byte>, pos: nat)
    requires pos + 2 <= |b|
    ensures PutU16(GetU16(b, pos)) == b[pos..pos + 2]
  {
  }

  // ---- Message type: twelve method bits around two class bits ----

  /** Method bits 11..7, class bit 1, method bits 6..4, class bit 0, method bits 3..0. */
  function Interleave(m: Word, c: Word): (t: Word)
    requires |m| == 12 && |c| == 2
    ensures |t| == 14
  {
    m[..5] + c[..1] + m[5..8] + c[1..] + m[8..]
  }

  function TypeField(method_: nat, cls: nat): (t: nat)
    requires method_ < 0x1000 && cls < 4
    ensures t < 0x4000
  {
    assert Pow2(14) == 0x4000;
    Value(Interleave(ToBits(12, method_), ToBits(2, cls)))
  }

  function MethodOf(t: nat): (m: nat)
    ensures m < 0x1000
  {
    assert Pow2(12) == 0x1000;
    var w := ToBits(14, t);
    Value(w[..5] + w[6..9] + w[10..])
  }

  function ClassOf(t: nat): (c: nat)
    ensures c < 4
  {
    assert Pow2(2) == 4;
    var w := ToBits(14, t);
    Value(w[5..6] + w[9..10])
  }

  lemma InterleaveParts(m: Word, c: Word)
    requires |m| == 12 && |c| == 2
    ensures var t := Interleave(m, c);
            t[..5] + t[6..9] + t[10..] == m && t[5..6] + t[9..10] == c
  {
    var t := Interleave(m, c);
    assert t[..5] == m[..5] && t[6..9] == m[5..8] && t[10..] == m[8..];
    assert t[5..6] == c[..1] && t[9..10] == c[1..];
    assert m == m[..5] + m[5..8] + m[8..] && c == c[..1] + c[1..];
  }

  /** Packing method and class into the type field loses nothing. */
  lemma TypeRoundTrip(method_: nat, cls: nat)
    requires method_ < 0x1000 && cls < 4
    ensures MethodOf(TypeField(method_, cls)) == method_ && ClassOf(TypeField(method_, cls)) == cls
  {
    var m, c := ToBits(12, method_), ToBits(2, cls);
    hide Interleave, ToBits, Value;
    InterleaveParts(m, c);
    BitsOfValue(Interleave(m, c));
    Powers();
    ValueOfBits(12, method_);
    ValueOfBits(2, cls);
  }

  lemma Powers()
    ensures Pow2(2) == 4 && Pow2(12) == 0x1000 && Pow2(14) == 0x4000
  {
  }

  /** Every fourteen-bit type field is the packing of one method and one class. */
  lemma TypeIsField(t: nat)
    requires t < 0x4000
    ensures TypeField(MethodOf(t), ClassOf(t)) == t
  {
    var w := ToBits(14, t);
    var m, c := w[..5] + w[6..9] + w[10..], w[5..6] + w[9..10];
    assert Interleave(m, c) == w;
    hide Interleave, ToBits, Value;
    BitsOfValue(m);
    BitsOfValue(c);
    Powers();
    ValueOfBits(14, t);
  }

  // ---- Attribute records ----

  function Pad(n: nat): (p: nat)
    ensures p < 4 && (n + p) % 4 == 0
  {
    if n % 4 == 0 then 0 else 4 - n % 4
  }

  datatype Record = Record(kind: nat, value: seq<Byte>, padding: seq<Byte>)

  predicate RecordOk(r: Record)
  {
    r.kind < 0x1_0000 && |r.value| <= MAX_ATTRIBUTE_SIZE && |r.padding| == Pad(|r.value|)
  }

  predicate RecordsOk(rs: seq<Record>)
  {
    forall i :: 0 <= i < |rs| ==> RecordOk(rs[i])
  }

  function RecordBytes(r: Record): (b: seq<Byte>)
    requires RecordOk(r)
    ensures |b| == 4 + |r.value| + |r.padding|
  {
    PutU16(r.kind) + PutU16(|r.value|) + r.value + r.padding
  }

  function Flatten(rs: seq<Record>): (b: seq<Byte>)
    requires RecordsOk(rs)
  {
    if rs == [] then [] else RecordBytes(rs[0]) + Flatten(rs[1..])
  }

  lemma {:induction false} FlattenAligned(rs: seq<Record>)
    requires RecordsOk(rs)
    ensures |Flatten(rs)| % 4 == 0
    decreases |rs|
  {
    hide RecordBytes, Pad;
    if rs != [] {
      FlattenAligned(rs[1..]);
      assert RecordOk(rs[0]);
    }
  }

  /** Where the reader finds an attribute's value. */
  datatype Located = Located(kind: nat, size: nat, offset: nat)

  function Locate(rs: seq<Record>, pos: nat): (ls: seq<Located>)
    requires RecordsOk(rs)
    ensures |ls| == |rs|
  {
    if rs == [] then []
    else [Located(rs[0].kind, |rs[0].value|, pos + 4)] + Locate(rs[1..], pos + |RecordBytes(rs[0])|)
  }

  // ---- Parsing a body ----

  /** The record that starts at `pos`, when it is complete and not too long. */
  function NextRecord(b: seq<Byte>, pos: nat): Option<Located>
    requires pos <= |b|
  {
    if pos + 4 > |b| then None
    else
      var kind, size := GetU16(b, pos), GetU16(b, pos + 2);
      if size > MAX_ATTRIBUTE_SIZE || pos + 4 + size + Pad(size) > |b| then None
      else Some(Located(kind, size, pos + 4))
  }

  function EndOf(a: Located): nat {
    a.offset + a.size + Pad(a.size)
  }

  /** All records from `pos` to the end, if the rest is a sequence of at most `room` of them. */
  function ParseFrom(b: seq<Byte>, pos: nat, room: nat): Option<seq<Located>>
    requires pos <= |b|
    decreases |b| - pos
  {
    if pos == |b| then Some([])
    else
      var a := NextRecord(b, pos);
      if a.None? || room == 0 then None
      else
        var rest := ParseFrom(b, EndOf(a.value), room - 1);
        if rest.None? then None else Some([a.value] + rest.value)
  }

  /** A record at `pos` is read as such. */
  lemma NextRecordReads(b: seq<Byte>, pos: nat, r: Record, rest: seq<Byte>)
    requires RecordOk(r) && pos <= |b| && b[pos..] == RecordBytes(r) + rest
    ensures NextRecord(b, pos) == Some(Located(r.kind, |r.value|, pos + 4))
    ensures EndOf(Located(r.kind, |r.value|, pos + 4)) == pos + |RecordBytes(r)| <= |b|
    ensures b[pos + |RecordBytes(r)|..] == rest && b[pos + 4..pos + 4 + |r.value|] == r.value
  {
  }

  /** One step of the parser over one step of the records. */
  lemma ParseStep(b: seq<Byte>, pos: nat, rs: seq<Record>, room: nat) returns (next: nat)
    requires rs != [] && RecordsOk(rs) && pos <= |b| && b[pos..] == Flatten(rs) && room > 0
    ensures pos < next <= |b| && b[next..] == Flatten(rs[1..])
    ensures ParseFrom(b, next, room - 1) == Some(Locate(rs[1..], next)) ==>
              ParseFrom(b, pos, room) == Some(Locate(rs, pos))
  {
    NextRecordReads(b, pos, rs[0], Flatten(rs[1..]));
    next := pos + |RecordBytes(rs[0])|;
  }

  /** Completeness: every sequence of records is accepted, at the offsets where its values are. */
  lemma {:induction false} ParseRecords(b: seq<Byte>, pos: nat, rs: seq<Record>, room: nat)
    requires RecordsOk(rs) && pos <= |b| && b[pos..] == Flatten(rs) && |rs| <= room
    ensures ParseFrom(b, pos, room) == Some(Locate(rs, pos))
    decreases |rs|
  {
    hide ParseFrom, Flatten, Locate, RecordOk;
    if rs == [] {
      NoRecords(b, pos, room);
    } else {
      var next := ParseStep(b, pos, rs, room);
      ParseRecords(b, next, rs[1..], room - 1);
    }
  }

  lemma NoRecords(b: seq<Byte>, pos: nat, room: nat)
    requires pos <= |b| && b[pos..] == Flatten([])
    ensures ParseFrom(b, pos, room) == Some(Locate([], pos))
  {
  }

  function RecordAt(b: seq<Byte>, a: Located): Record
    requires EndOf(a) <= |b|
  {
    Record(a.kind, b[a.offset..a.offset + a.size], b[a.offset + a.size..EndOf(a)])
  }

  lemma NextRecordWrites(b: seq<Byte>, pos: nat)
    requires pos <= |b| && NextRecord(b, pos).Some?
    ensures var a := NextRecord(b, pos).value;
            && pos < EndOf(a) <= |b| && RecordOk(RecordAt(b, a))
            && b[pos..EndOf(a)] == RecordBytes(RecordAt(b, a))
  {
  }

  /** Soundness: whatever is accepted is a sequence of records, at most `room` of them. */
  lemma {:induction false} ParsedRecords(b: seq<Byte>, pos: nat, room: nat) returns (rs: seq<Record>)
    requires pos <= |b| && ParseFrom(b, pos, room).Some?
    ensures RecordsOk(rs) && |rs| <= room && b[pos..] == Flatten(rs)
    ensures ParseFrom(b, pos, room).value == Locate(rs, pos)
    decreases |b| - pos
  {
    if pos == |b| {
      rs := [];
    } else {
      var a := NextRecord(b, pos).value;
      NextRecordWrites(b, pos);
      hide NextRecord, RecordBytes, EndOf, RecordAt;
      var rest := ParsedRecords(b, EndOf(a), room - 1);
      rs := [RecordAt(b, a)] + rest;
      assert rs[1..] == rest;
      assert b[pos..] == b[pos..EndOf(a)] + b[EndOf(a)..];
    }
  }

  ghost predicate IsBody(b: seq<Byte>, rs: seq<Record>)
    requires |b| >= HEADER_SIZE
  {
    RecordsOk(rs) && |rs| <= MAX_ATTRIBUTES && b[HEADER_SIZE..] == Flatten(rs)
  }

  /** The body is accepted exactly when it is a concatenation of at most thirty padded records, and then the
      attributes found are those records, each at the place of its value. */
  lemma BodyIsRecords(b: seq<Byte>)
    requires |b| >= HEADER_SIZE
    ensures ParseFrom(b, HEADER_SIZE, MAX_ATTRIBUTES).Some? <==> exists rs :: IsBody(b, rs)
    ensures forall rs :: IsBody(b, rs) ==> ParseFrom(b, HEADER_SIZE, MAX_ATTRIBUTES) == Some(Locate(rs, HEADER_SIZE))
    ensures forall rs, i :: IsBody(b, rs) && 0 <= i < |rs| ==> HoldsRecord(b, Locate(rs, HEADER_SIZE)[i], rs[i])
  {
    hide ParseFrom, Flatten, Locate;
    if ParseFrom(b, HEADER_SIZE, MAX_ATTRIBUTES).Some? {
      var rs := ParsedRecords(b, HEADER_SIZE, MAX_ATTRIBUTES);
      assert IsBody(b, rs);
    }
    forall rs | IsBody(b, rs) ensures ParseFrom(b, HEADER_SIZE, MAX_ATTRIBUTES) == Some(Locate(rs, HEADER_SIZE)) {
      ParseRecords(b, HEADER_SIZE, rs, MAX_ATTRIBUTES);
    }
    forall rs, i | IsBody(b, rs) && 0 <= i < |rs| ensures HoldsRecord(b, Locate(rs, HEADER_SIZE)[i], rs[i]) {
      LocateShape(rs, b, HEADER_SIZE, i);
    }
  }

  /** Attribute `a` of the message bytes `b` is the record `r`. */
  predicate HoldsRecord(b: seq<Byte>, a: Located, r: Record)
  {
    a.kind == r.kind && a.offset + a.size <= |b| && b[a.offset..a.offset + a.size] == r.value
  }

  predicate InBounds(b: seq<Byte>, a: Located)
  {
    && a.offset % 4 == 0 && a.offset + a.size <= EndOf(a) <= |b|
    && a.size <= MAX_ATTRIBUTE_SIZE && a.kind < 0x1_0000
  }

  lemma NextInBounds(b: seq<Byte>, pos: nat)
    requires pos <= |b| && pos % 4 == 0 && NextRecord(b, pos).Some?
    ensures var a := NextRecord(b, pos).value;
            a.offset == pos + 4 && InBounds(b, a) && pos < EndOf(a) && EndOf(a) % 4 == 0
  {
  }

  /** Every attribute found lies inside the message, at a multiple of four. */
  lemma {:induction false} ParsedInBounds(b: seq<Byte>, pos: nat, room: nat, i: nat)
    requires pos <= |b| && pos % 4 == 0 && ParseFrom(b, pos, room).Some?
    requires i < |ParseFrom(b, pos, room).value|
    ensures InBounds(b, ParseFrom(b, pos, room).value[i]) && pos + 4 <= ParseFrom(b, pos, room).value[i].offset
    decreases |b| - pos
  {
    NextInBounds(b, pos);
    var a := NextRecord(b, pos).value;
    hide NextRecord, InBounds, EndOf;
    if i > 0 {
      ParsedInBounds(b, EndOf(a), room - 1, i - 1);
    }
  }

  lemma {:induction false} ParsedCount(b: seq<Byte>, pos: nat, room: nat)
    requires pos <= |b| && ParseFrom(b, pos, room).Some?
    ensures |ParseFrom(b, pos, room).value| <= room
    decreases |b| - pos
  {
    if pos < |b| {
      ParsedCount(b, EndOf(NextRecord(b, pos).value), room - 1);
    }
  }

  // ---- Whole messages ----

  datatype Attribute = Attribute(kind: nat, value: seq<Byte>)

  datatype Message = Message(method_: nat, cls: nat, tid: seq<Byte>, attributes: seq<Attribute>)

  function Blank(n: nat): (b: seq<Byte>)
    ensures |b| == n
  {
    seq(n, _ => 0)
  }

  /** In RFC 5389 mode the padding follows the value; in legacy mode it is counted as part of it. */
  function ToRecord(legacy: bool, a: Attribute): Record
  {
    if legacy then Record(a.kind, a.value + Blank(Pad(|a.value|)), [])
    else Record(a.kind, a.value, Blank(Pad(|a.value|)))
  }

  function ToRecords(legacy: bool, attributes: seq<Attribute>): (rs: seq<Record>)
    ensures |rs| == |attributes|
    ensures forall i :: 0 <= i < |rs| ==> rs[i] == ToRecord(legacy, attributes[i])
  {
    seq(|attributes|, i requires 0 <= i < |attributes| => ToRecord(legacy, attributes[i]))
  }

  predicate Printable(legacy: bool, m: Message)
  {
    && m.method_ < 0x1000 && m.cls < 4 && |m.tid| == 16
    && |m.attributes| <= MAX_ATTRIBUTES
    && RecordsOk(ToRecords(legacy, m.attributes))
    && |Flatten(ToRecords(legacy, m.attributes))| <= MAX_MESSAGE_SIZE
  }

  function Print(legacy: bool, m: Message): (b: seq<Byte>)
    requires Printable(legacy, m)
    ensures |b| >= HEADER_SIZE
  {
    var body := Flatten(ToRecords(legacy, m.attributes));
    PutU16(TypeField(m.method_, m.cls)) + PutU16(|body|) + m.tid + body
  }

  /** The last place of a kind, or -1. */
  function LastAt(kinds: seq<nat>, kind: nat): (i: int)
    ensures -1 <= i < |kinds|
    ensures i >= 0 ==> kinds[i] == kind
    ensures forall j :: i < j < |kinds| ==> kinds[j] != kind
  {
    if kinds == [] then -1
    else if kinds[|kinds| - 1] == kind then |kinds| - 1
    else LastAt(kinds[..|kinds| - 1], kind)
  }

  // ---- Reading the header ----

  datatype HeaderInfo = HeaderInfo(method_: nat, cls: nat, length: nat, tid: seq<Byte>, legacy: bool)

  /** The header checks; the cookie is compulsory only when legacy messages are not allowed. */
  function ReadHeader(b: seq<Byte>, allowLegacy: bool): Option<HeaderInfo>
    requires |b| >= HEADER_SIZE
  {
    var t, length, tid := GetU16(b, 0), GetU16(b, 2), b[4..20];
    var legacy := tid[..4] != COOKIE;
    if t < 0x4000 && length % 4 == 0 && (allowLegacy || !legacy) && length <= MAX_MESSAGE_SIZE
    then Some(HeaderInfo(MethodOf(t), ClassOf(t), length, tid, legacy))
    else None
  }

  lemma PrintHeader(legacy: bool, m: Message, allowLegacy: bool)
    requires Printable(legacy, m) && (allowLegacy || m.tid[..4] == COOKIE)
    ensures ReadHeader(Print(legacy, m), allowLegacy)
            == Some(HeaderInfo(m.method_, m.cls, |Print(legacy, m)| - HEADER_SIZE, m.tid, m.tid[..4] != COOKIE))
    ensures Print(legacy, m)[HEADER_SIZE..] == Flatten(ToRecords(legacy, m.attributes))
  {
    var b, body := Print(legacy, m), Flatten(ToRecords(legacy, m.attributes));
    var t := TypeField(m.method_, m.cls);
    FlattenAligned(ToRecords(legacy, m.attributes));
    assert b[0..2] == PutU16(t) && b[2..4] == PutU16(|body|) && b[4..20] == m.tid && b[20..] == body;
    hide TypeField, MethodOf, ClassOf, Flatten, PutU16, GetU16;
    GetPutU16(b, 0, t);
    GetPutU16(b, 2, |body|);
    TypeRoundTrip(m.method_, m.cls);
  }

  lemma {:induction false} LocateShape(rs: seq<Record>, b: seq<Byte>, pos: nat, i: nat)
    requires RecordsOk(rs) && pos <= |b| && b[pos..] == Flatten(rs) && i < |rs|
    ensures HoldsRecord(b, Locate(rs, pos)[i], rs[i])
    decreases |rs|
  {
    NextRecordReads(b, pos, rs[0], Flatten(rs[1..]));
    if i > 0 {
      LocateShape(rs[1..], b, pos + |RecordBytes(rs[0])|, i - 1);
    }
  }

  /** The value an attribute is read back with: legacy values keep their zero padding. */
  function ReadBack(legacy: bool, value: seq<Byte>): seq<Byte>
  {
    if legacy then value + Blank(Pad(|value|)) else value
  }

  /** Attribute `a` of the message bytes `b` is `original`, as `legacy` messages carry it. */
  predicate IsReadAs(b: seq<Byte>, a: Located, legacy: bool, original: Attribute)
  {
    && a.kind == original.kind && a.offset + a.size <= |b|
    && b[a.offset..a.offset + a.size] == ReadBack(legacy, original.value)
  }

  /** Round trip: a printed message has a valid header and body, with the same method, class,
      transaction id, and attributes in wire order. */
  lemma PrintParse(legacy: bool, m: Message, allowLegacy: bool)
    requires Printable(legacy, m) && (allowLegacy || m.tid[..4] == COOKIE)
    ensures var b := Print(legacy, m);
            && ReadHeader(b, allowLegacy)
               == Some(HeaderInfo(m.method_, m.cls, |b| - HEADER_SIZE, m.tid, m.tid[..4] != COOKIE))
            && var found := ParseFrom(b, HEADER_SIZE, MAX_ATTRIBUTES);
            && found.Some? && |found.value| == |m.attributes|
            && forall i :: 0 <= i < |m.attributes| ==> IsReadAs(b, found.value[i], legacy, m.attributes[i])
  {
    var b, rs := Print(legacy, m), ToRecords(legacy, m.attributes);
    PrintHeader(legacy, m, allowLegacy);
    ParseRecords(b, HEADER_SIZE, rs, MAX_ATTRIBUTES);
    hide Flatten, Locate, Print, ParseFrom, ReadHeader;
    forall i | 0 <= i < |m.attributes| ensures IsReadAs(b, Locate(rs, HEADER_SIZE)[i], legacy, m.attributes[i]) {
      LocateShape(rs, b, HEADER_SIZE, i);
    }
  }
}

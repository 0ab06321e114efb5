/** The bytes of an answer, and what the client that receives them reads in them. */
module Replies {
  import opened Bits
  import opened Options
  import opened Wire
  import opened Incremental
  import opened Sealing
  import opened Addresses
  import opened StunBuilder
  import opened Handler

  const FAILED_REASON: seq<Byte> := [70, 65, 73, 76, 69, 68]

  // ---- The answer as a message ----

  function Optional(kind: nat, a: Option<Address>): seq<Attribute>
    requires a.Some? ==> AddressOk(a.value)
  {
    if a.None? then [] else [Attribute(kind, AddressValue(a.value))]
  }

  function Unless(kind: nat, text: Text): seq<Attribute>
  {
    if text == [] then [] else [Attribute(kind, text)]
  }

  predicate AnswerOk(a: Answer)
  {
    match a
    case Refusal(code, _, _) => 300 <= code <= 600
    case Success(_, origin, other, _) =>
      (origin.Some? ==> AddressOk(origin.value)) && (other.Some? ==> AddressOk(other.value))
  }

  lemma DenialCode(s: Server, q: Incoming)
    requires IncomingOk(q)
    ensures ValidateAuth(s, q).Denied? ==> 400 <= ValidateAuth(s, q).code <= 438
  {
    hide TextOf, IntegrityValid, LastIndex, LongTermKey, IncomingOk;
  }

  lemma BindingOk(s: Server, q: Incoming, key: seq<Byte>)
    requires IncomingOk(q) && s.sockets.Ok()
    ensures AnswerOk(ProcessBindingRequest(s, q, key))
  {
    assert AddressOk(q.local);
    SocketOk(s.sockets, OutputRole(q));
    SocketOk(s.sockets, Opposite(q.role));
    hide Handler.Value, ResponsePort, ChangeRequest, OutputRole, IsIPZero, IncomingOk, AddressOk, Opposite;
  }

  lemma SocketOk(s: Sockets, r: Role)
    requires s.Ok()
    ensures AddressOk(s.At(r).addr)
  {
  }

  lemma DecidesOk(s: Server, q: Incoming)
    requires IncomingOk(q) && s.sockets.Ok() && Decide(s, q).Some?
    ensures AnswerOk(Decide(s, q).value)
  {
    hide IncomingOk, ResponsePort, ValidateAuth, ProcessBindingRequest;
    DenialCode(s, q);
    if ValidateAuth(s, q).Cleared? {
      BindingOk(s, q, ValidateAuth(s, q).key);
    }
  }

  /** The answer without its integrity attribute; legacy requests get the legacy attribute kinds. */
  function AnswerMessage(q: Incoming, a: Answer): Message
    requires IncomingOk(q) && AnswerOk(a)
  {
    IncomingUsable(q);
    var h := q.reader.header;
    match a
    case Refusal(code, realm, nonce) =>
      Message(h.method_, FAILURE_CLASS, h.tid, [Attribute(ERROR_CODE, ErrorValue(code, FAILED_REASON))]
                                               + Challenge(code, realm, nonce))
    case Success(_, origin, other, _) =>
      Message(BINDING, SUCCESS_CLASS, h.tid, SuccessAttributes(h.legacy, q.remote, h.tid, origin, other))
  }

  function Challenge(code: nat, realm: Text, nonce: Text): seq<Attribute>
  {
    if code == STALE_NONCE || code == UNAUTHORIZED then Unless(NONCE, nonce) + Unless(REALM, realm) else []
  }

  function OriginKind(legacy: bool): nat { if legacy then SOURCE_ADDRESS else RESPONSE_ORIGIN }

  function OtherKind(legacy: bool): nat { if legacy then CHANGED_ADDRESS else OTHER_ADDRESS }

  function XorKind(legacy: bool): nat { if legacy then XOR_MAPPED_ADDRESS_OPTIONAL else XOR_MAPPED_ADDRESS }

  function SuccessAttributes(legacy: bool, remote: Address, tid: seq<Byte>, origin: Option<Address>,
                             other: Option<Address>): seq<Attribute>
    requires AddressOk(remote) && |tid| == 16
    requires (origin.Some? ==> AddressOk(origin.value)) && (other.Some? ==> AddressOk(other.value))
  {
    [Attribute(MAPPED_ADDRESS, AddressValue(remote))] + Optional(OriginKind(legacy), origin)
    + Optional(OtherKind(legacy), other) + [Attribute(XorKind(legacy), AddressValue(Masked(remote, tid)))]
  }

  /** What goes out. */
  function AnswerBytes(s: Server, q: Incoming, a: Answer): seq<Byte>
    requires IncomingOk(q) && AnswerOk(a) && Printable(q.reader.header.legacy, AnswerMessage(q, a))
  {
    var b := Print(q.reader.header.legacy, AnswerMessage(q, a));
    if a.Success? && a.key != [] then SealIntegrity(s.hmac, a.key, b) else b
  }

  // ---- Its size ----

  lemma {:induction false} FlattenBound(rs: seq<Record>, k: nat)
    requires RecordsOk(rs) && forall i :: 0 <= i < |rs| ==> 4 + |rs[i].value| + |rs[i].padding| <= k
    ensures |Flatten(rs)| <= k * |rs|
    decreases |rs|
  {
    if rs != [] {
      FlattenBound(rs[1..], k);
      assert k * |rs| == k + k * (|rs| - 1);
    }
  }

  /** Attributes with values of at most `k` bytes take at most `k + 4` bytes each, for `k` a multiple of four. */
  lemma SizeBound(legacy: bool, attributes: seq<Attribute>, k: nat)
    requires k % 4 == 0 && k <= MAX_ATTRIBUTE_SIZE
    requires forall i :: 0 <= i < |attributes| ==> attributes[i].kind < 0x1_0000 && |attributes[i].value| <= k
    ensures RecordsOk(ToRecords(legacy, attributes))
    ensures |Flatten(ToRecords(legacy, attributes))| <= (k + 4) * |attributes|
  {
    hide Flatten;
    var rs := ToRecords(legacy, attributes);
    forall i | 0 <= i < |rs| ensures RecordOk(rs[i]) && 4 + |rs[i].value| + |rs[i].padding| <= k + 4 {
      assert attributes[i].kind < 0x1_0000 && |attributes[i].value| <= k;
    }
    FlattenBound(rs, k + 4);
  }

  lemma SuccessSize(q: Incoming, a: Answer)
    requires IncomingOk(q) && AnswerOk(a) && a.Success?
    ensures Printable(q.reader.header.legacy, AnswerMessage(q, a))
    ensures |Print(q.reader.header.legacy, AnswerMessage(q, a))| <= 116
  {
    hide Flatten, RecordsOk, AddressValue, OneShot, TypeField, Masked;
    IncomingUsable(q);
    var m := AnswerMessage(q, a);
    assert |m.attributes| <= 4;
    SizeBound(q.reader.header.legacy, m.attributes, 20);
  }

  lemma {:induction false} FlattenConcat(rs: seq<Record>, qs: seq<Record>)
    requires RecordsOk(rs) && RecordsOk(qs) && RecordsOk(rs + qs)
    ensures |Flatten(rs + qs)| == |Flatten(rs)| + |Flatten(qs)|
    decreases |qs|
  {
    hide RecordOk, RecordBytes, Flatten;
    if qs == [] {
      assert rs + qs == rs;
      EmptyFlatten();
    } else {
      var n := |qs| - 1;
      var init, last := qs[..n], qs[n];
      assert qs == init + [last] && rs + qs == (rs + init) + [last];
      assert forall i :: 0 <= i < |rs + init| ==> (rs + init)[i] == (rs + qs)[i];
      FlattenConcat(rs, init);
      FlattenAppend(rs + init, last);
      FlattenAppend(init, last);
    }
  }

  lemma EmptyFlatten()
    ensures Flatten([]) == []
  {
  }

  lemma ErrorRecordSize(legacy: bool, code: nat)
    requires 300 <= code <= 600
    ensures var rs := ToRecords(legacy, [Attribute(ERROR_CODE, ErrorValue(code, FAILED_REASON))]);
            RecordsOk(rs) && |Flatten(rs)| == 16
  {
  }

  lemma RefusalSize(q: Incoming, a: Answer)
    requires IncomingOk(q) && AnswerOk(a) && a.Refusal?
    ensures Printable(q.reader.header.legacy, AnswerMessage(q, a))
    ensures |Print(q.reader.header.legacy, AnswerMessage(q, a))| <= 172
  {
    hide Flatten, RecordOk, OneShot, TypeField, ErrorValue, ToRecord;
    IncomingUsable(q);
    var legacy := q.reader.header.legacy;
    var first, rest := [Attribute(ERROR_CODE, ErrorValue(a.code, FAILED_REASON))], Challenge(a.code, a.realm, a.nonce);
    ErrorRecordSize(legacy, a.code);
    SizeBound(legacy, rest, 64);
    var rs, qs := ToRecords(legacy, first), ToRecords(legacy, rest);
    assert ToRecords(legacy, first + rest) == rs + qs;
    FlattenConcat(rs, qs);
  }

  /** Every answer can be printed, and takes between 20 and 200 bytes. */
  lemma AnswerFits(s: Server, q: Incoming, a: Answer)
    requires IncomingOk(q) && AnswerOk(a)
    ensures Printable(q.reader.header.legacy, AnswerMessage(q, a)) && HEADER_SIZE <= |AnswerBytes(s, q, a)| <= 200
  {
    hide Printable, Print, AnswerMessage, IncomingOk, SealIntegrity;
    if a.Success? {
      SuccessSize(q, a);
    } else {
      RefusalSize(q, a);
    }
  }

  // ---- Reading a printed message ----

  /** The last attribute of a kind, or -1. */
  function LastOf(attributes: seq<Attribute>, kind: nat): (i: int)
    ensures -1 <= i < |attributes|
    ensures i >= 0 ==> attributes[i].kind == kind
    ensures forall j :: i < j < |attributes| ==> attributes[j].kind != kind
  {
    var kinds := seq(|attributes|, i requires 0 <= i < |attributes| => attributes[i].kind);
    assert forall j :: 0 <= j < |attributes| ==> kinds[j] == attributes[j].kind;
    LastAt(kinds, kind)
  }

  /** A lookup by kind in a printed message gives the last value of that kind. */
  lemma FindPrinted(legacy: bool, m: Message, kind: nat)
    requires Printable(legacy, m)
    ensures var b := Print(legacy, m);
            var fs := OneShot(true, b).attributes;
            && Usable(b, fs)
            && var i := LastOf(m.attributes, kind);
            Find(b, fs, kind) == if i == -1 then None else Some(ReadBack(legacy, m.attributes[i].value))
  {
    hide Print, Printable, OneShot, Locate, ReadBack, ToRecords, ParseFrom, ReadHeader;
    var b := Print(legacy, m);
    PrintAccepted(legacy, m);
    PrintParse(legacy, m, true);
    AcceptedIffParsed(true, b);
    var fs := OneShot(true, b).attributes;
    assert forall i :: 0 <= i < |fs| ==> IsReadAs(b, fs[i], legacy, m.attributes[i]);
    var i, j := LastIndex(fs, kind), LastOf(m.attributes, kind);
    assert i == j by {
      if j != -1 {
        assert fs[j].kind == kind;
      }
      if i != -1 {
        assert m.attributes[i].kind == kind;
      }
    }
  }

  /** An address attribute that is the last of its kind is read back as written, in either mode. */
  lemma AddressPrinted(legacy: bool, m: Message, i: nat, a: Address)
    requires Printable(legacy, m) && AddressOk(a) && i < |m.attributes|
    requires m.attributes[i].value == AddressValue(a) && LastOf(m.attributes, m.attributes[i].kind) == i
    ensures var b := Print(legacy, m);
            var fs := OneShot(true, b).attributes;
            Usable(b, fs) && FindAddress(b, fs, m.attributes[i].kind) == Some(a)
  {
    hide Print, Printable, OneShot, LastOf, Find, ReadAddress, AddressValue;
    FindPrinted(legacy, m, m.attributes[i].kind);
    AddressRoundTrip(a);
    NoPadding(legacy, AddressValue(a));
  }

  lemma NoPadding(legacy: bool, v: seq<Byte>)
    requires |v| % 4 == 0
    ensures ReadBack(legacy, v) == v
  {
  }

  /** What a successful answer's attributes are: the kinds in order, the mask on the last. */
  predicate IsSuccess(m: Message, legacy: bool, remote: Address, tid: seq<Byte>, other: Option<Address>)
    requires AddressOk(remote) && |tid| == 16 && (other.Some? ==> AddressOk(other.value))
  {
    && (var i := LastOf(m.attributes, MAPPED_ADDRESS); i >= 0 && m.attributes[i].value == AddressValue(remote))
    && (var i := LastOf(m.attributes, XorKind(legacy));
        i >= 0 && m.attributes[i].value == AddressValue(Masked(remote, tid)))
    && LastOf(m.attributes, XorKind(!legacy)) == -1
    && (var i := LastOf(m.attributes, OtherKind(legacy));
        if other.None? then i == -1 else i >= 0 && m.attributes[i].value == AddressValue(other.value))
    && LastOf(m.attributes, OtherKind(!legacy)) == -1
  }

  lemma LastOfIs(attributes: seq<Attribute>, kind: nat, i: int)
    requires -1 <= i < |attributes| && (i >= 0 ==> attributes[i].kind == kind)
    requires forall j :: i < j < |attributes| ==> attributes[j].kind != kind
    ensures LastOf(attributes, kind) == i
  {
  }

  /** Which kind stands where in a successful answer. */
  function KindAt(legacy: bool, origin: bool, other: bool, j: nat): nat
  {
    var n := if origin then 2 else 1;
    var k := if other then n + 1 else n;
    if j == 0 then MAPPED_ADDRESS
    else if j == k then XorKind(legacy)
    else if j > k then INTEGRITY
    else if origin && j == 1 then OriginKind(legacy)
    else OtherKind(legacy)
  }

  lemma SuccessKinds(legacy: bool, remote: Address, tid: seq<Byte>, origin: Option<Address>, other: Option<Address>)
    requires AddressOk(remote) && |tid| == 16
    requires (origin.Some? ==> AddressOk(origin.value)) && (other.Some? ==> AddressOk(other.value))
    ensures var s := SuccessAttributes(legacy, remote, tid, origin, other);
            var n := if origin.Some? then 2 else 1;
            var k := if other.Some? then n + 1 else n;
            && |s| == k + 1 && s[0].value == AddressValue(remote) && s[k].value == AddressValue(Masked(remote, tid))
            && (other.Some? ==> s[n].value == AddressValue(other.value))
            && forall j :: 0 <= j < |s| ==> s[j].kind == KindAt(legacy, origin.Some?, other.Some?, j)
  {
  }

  lemma SuccessShape(legacy: bool, remote: Address, tid: seq<Byte>, origin: Option<Address>, other: Option<Address>,
                     tail: seq<Attribute>, m: Message)
    requires AddressOk(remote) && |tid| == 16
    requires (origin.Some? ==> AddressOk(origin.value)) && (other.Some? ==> AddressOk(other.value))
    requires forall j :: 0 <= j < |tail| ==> tail[j].kind == INTEGRITY
    requires m.attributes == SuccessAttributes(legacy, remote, tid, origin, other) + tail
    ensures IsSuccess(m, legacy, remote, tid, other)
  {
    hide AddressValue, Masked, LastOf, SuccessAttributes;
    SuccessKinds(legacy, remote, tid, origin, other);
    var n := if origin.Some? then 2 else 1;
    var k := if other.Some? then n + 1 else n;
    assert forall j :: 0 <= j < |m.attributes| ==> m.attributes[j].kind == KindAt(legacy, origin.Some?, other.Some?, j);
    LastOfIs(m.attributes, MAPPED_ADDRESS, 0);
    LastOfIs(m.attributes, XorKind(legacy), k);
    LastOfIs(m.attributes, XorKind(!legacy), -1);
    LastOfIs(m.attributes, OtherKind(legacy), if other.Some? then n else -1);
    LastOfIs(m.attributes, OtherKind(!legacy), -1);
  }

  /** The message tells its reader these addresses, the first both plainly and masked. */
  predicate TellsAddresses(b: seq<Byte>, r: Reader, mapped: Address, other: Option<Address>)
  {
    && Usable(b, r.attributes) && |r.header.tid| == 16
    && GetMapped(b, r.attributes) == Some(mapped)
    && GetXorMapped(b, r.attributes, r.header.tid) == Some(mapped)
    && GetOther(b, r.attributes) == other
  }

  /** A client reads the right addresses out of such a message. */
  lemma SuccessReadBack(legacy: bool, m: Message, remote: Address, other: Option<Address>)
    requires Printable(legacy, m) && AddressOk(remote) && (other.Some? ==> AddressOk(other.value))
    requires |m.tid| == 16 && IsSuccess(m, legacy, remote, m.tid, other)
    ensures var b := Print(legacy, m);
            TellsAddresses(b, OneShot(true, b), remote, other)
  {
    PrintAccepted(legacy, m);
    hide Locate, ToRecords;
    hide Print, Printable, OneShot, LastOf, Find, AddressValue, Masked;
    AddressPrinted(legacy, m, LastOf(m.attributes, MAPPED_ADDRESS), remote);
    AddressPrinted(legacy, m, LastOf(m.attributes, XorKind(legacy)), Masked(remote, m.tid));
    FindPrinted(legacy, m, XorKind(!legacy));
    MaskedTwice(remote, m.tid);
    FindPrinted(legacy, m, OtherKind(!legacy));
    if other.Some? {
      AddressPrinted(legacy, m, LastOf(m.attributes, OtherKind(legacy)), other.value);
    } else {
      FindPrinted(legacy, m, OtherKind(legacy));
    }
  }

  // ---- What the sender of the request can rely on ----

  lemma SealFits(q: Incoming, a: Answer)
    requires IncomingOk(q) && AnswerOk(a) && a.Success?
    ensures Fits(q.reader.header.legacy, AnswerMessage(q, a), INTEGRITY, 20)
  {
    hide Flatten, RecordsOk, AddressValue, OneShot, TypeField, Masked;
    IncomingUsable(q);
    var m := Plus(AnswerMessage(q, a), Attribute(INTEGRITY, Blank(20)));
    assert |m.attributes| <= 5;
    SizeBound(q.reader.header.legacy, m.attributes, 20);
  }

  /** Header of an answer: the request's transaction id, and its method with the answer's class. */
  predicate AnswersHeader(q: Incoming, a: Answer, r: Reader)
  {
    && r.state == BodyValidated && r.header.tid == q.reader.header.tid
    && (if a.Success? then r.header.method_ == BINDING && r.header.cls == SUCCESS_CLASS
        else r.header.method_ == q.reader.header.method_ && r.header.cls == FAILURE_CLASS)
  }

  lemma AnswerTid(q: Incoming, a: Answer)
    requires IncomingOk(q) && AnswerOk(a)
    ensures AnswerMessage(q, a).tid == q.reader.header.tid && |AnswerMessage(q, a).tid| == 16
    ensures a.Success? ==> AnswerMessage(q, a).method_ == BINDING && AnswerMessage(q, a).cls == SUCCESS_CLASS
    ensures a.Refusal? ==> AnswerMessage(q, a).method_ == q.reader.header.method_
    ensures a.Refusal? ==> AnswerMessage(q, a).cls == FAILURE_CLASS
  {
    hide OneShot, ErrorValue, Challenge, SuccessAttributes;
    IncomingUsable(q);
  }

  lemma PlainAnswer(s: Server, q: Incoming, a: Answer)
    requires IncomingOk(q) && AnswerOk(a) && (a.Success? ==> a.key == [])
    ensures Printable(q.reader.header.legacy, AnswerMessage(q, a))
    ensures var b := AnswerBytes(s, q, a);
            var r := OneShot(true, b);
            && AnswersHeader(q, a, r) && Usable(b, r.attributes)
            && (a.Success? ==> TellsAddresses(b, r, q.remote, a.other))
  {
    AnswerFits(s, q, a);
    AnswerTid(q, a);
    var legacy, m := q.reader.header.legacy, AnswerMessage(q, a);
    if a.Success? {
      SuccessMessage(q, a, []);
    }
    hide Print, Printable, OneShot, AnswerMessage, IsSuccess, Locate, ToRecords;
    PrintAccepted(legacy, m);
    if a.Success? {
      SuccessReadBack(legacy, m, q.remote, a.other);
    }
  }

  lemma SuccessMessage(q: Incoming, a: Answer, tail: seq<Attribute>)
    requires IncomingOk(q) && AnswerOk(a) && a.Success? && AddressOk(q.remote)
    requires forall j :: 0 <= j < |tail| ==> tail[j].kind == INTEGRITY
    ensures |q.reader.header.tid| == 16
    ensures var m := AnswerMessage(q, a);
            var h := q.reader.header;
            IsSuccess(m.(attributes := m.attributes + tail), h.legacy, q.remote, h.tid, a.other)
    ensures IsSuccess(AnswerMessage(q, a), q.reader.header.legacy, q.remote, q.reader.header.tid, a.other)
  {
    hide OneShot, SuccessAttributes, IsSuccess, AddressOk;
    IncomingUsable(q);
    var h, m := q.reader.header, AnswerMessage(q, a);
    SuccessShape(h.legacy, q.remote, h.tid, a.origin, a.other, tail, m.(attributes := m.attributes + tail));
    assert m.attributes + [] == m.attributes;
    SuccessShape(h.legacy, q.remote, h.tid, a.origin, a.other, [], m);
  }

  lemma SealedAnswer(s: Server, q: Incoming, a: Answer)
    requires IncomingOk(q) && AnswerOk(a) && a.Success? && a.key != []
    ensures Printable(q.reader.header.legacy, AnswerMessage(q, a))
    ensures var b := AnswerBytes(s, q, a);
            var r := OneShot(true, b);
            && AnswersHeader(q, a, r) && Usable(b, r.attributes)
            && TellsAddresses(b, r, q.remote, a.other)
            && IntegrityValid(s.hmac, a.key, b, r.attributes)
  {
    AnswerFits(s, q, a);
    AnswerTid(q, a);
    SealFits(q, a);
    var legacy, m := q.reader.header.legacy, AnswerMessage(q, a);
    hide Print, Printable, OneShot, AnswerMessage, IsSuccess, SealIntegrity, IntegrityValid, Fits, Drafts, Locate;
    hide ToRecords;
    var c := Print(legacy, m);
    PrintDrafts(legacy, m);
    IntegrityAgrees(s.hmac, a.key, c, legacy, m);
    var mac := IntegrityPrints(s.hmac, a.key, c, legacy, m);
    SuccessMessage(q, a, [mac]);
    PrintAccepted(legacy, Plus(m, mac));
    SuccessReadBack(legacy, Plus(m, mac), q.remote, a.other);
  }

  /** Every answer is a well-formed message of at most 200 bytes with the request's transaction id;
      a successful one tells the sender its own address twice, names the server's opposite address
      or none, and is sealed with the key that cleared the request, if one did. */
  lemma AnswerIsReadable(s: Server, q: Incoming)
    requires IncomingOk(q) && s.sockets.Ok() && Decide(s, q).Some?
    ensures var a := Decide(s, q).value;
            && AnswerOk(a) && Printable(q.reader.header.legacy, AnswerMessage(q, a))
            && var b := AnswerBytes(s, q, a);
            var r := OneShot(true, b);
            && HEADER_SIZE <= |b| <= 200 && AnswersHeader(q, a, r) && Usable(b, r.attributes)
            && (a.Success? ==> TellsAddresses(b, r, q.remote, a.other))
            && (a.Success? && a.key != [] ==> IntegrityValid(s.hmac, a.key, b, r.attributes))
  {
    DecidesOk(s, q);
    hide Decide, AnswerMessage, Printable, OneShot, IncomingOk, IntegrityValid, AnswerOk;
    var a := Decide(s, q).value;
    AnswerFits(s, q, a);
    if a.Success? && a.key != [] {
      SealedAnswer(s, q, a);
    } else {
      PlainAnswer(s, q, a);
    }
  }
}

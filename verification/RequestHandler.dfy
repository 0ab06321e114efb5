/** CStunRequestHandler as it runs: the answer is written into the caller's buffer. */
module RequestHandler {
  import opened Bits
  import opened Options
  import opened Wire
  import opened Incremental
  import opened Sealing
  import opened Stream
  import opened Addresses
  import opened StunBuilder
  import opened Handler
  import opened Replies

  /** Messages as small as all answers are on the way to completion. */
  predicate Small(m: Message)
  {
    && m.method_ < 0x1000 && m.cls < 4 && |m.tid| == 16 && |m.attributes| <= 5
    && forall i :: 0 <= i < |m.attributes| ==> SmallAttribute(m.attributes[i])
  }

  predicate SmallAttribute(a: Attribute)
  {
    a.kind < 0x1_0000 && |a.value| <= 64
  }

  lemma SmallPrints(legacy: bool, m: Message)
    requires Small(m)
    ensures Printable(legacy, m) && |Print(legacy, m)| <= 360
  {
    hide Flatten, RecordsOk, TypeField;
    assert forall i :: 0 <= i < |m.attributes| ==> SmallAttribute(m.attributes[i]);
    SizeBound(legacy, m.attributes, 64);
  }

  /** The builder holds a draft of `m` in the buffer `b` it was given. */
  ghost predicate Holds(w: StunMessageBuilder, b: Buffer, m: Message)
    reads w, w.stream, w.stream.buffer, w.stream.buffer.data
  {
    && w.Valid() && w.stream.buffer == b && b.data.Length >= MAX_MESSAGE_SIZE
    && Small(m) && Drafts(w.Contents(), w.legacy, m) && w.tid == m.tid
  }

  lemma DraftLength(c: seq<Byte>, legacy: bool, m: Message)
    requires Drafts(c, legacy, m) && Small(m)
    ensures |c| <= 360
  {
    hide Print, Printable, Drafts;
    SmallPrints(legacy, m);
    DraftPrints(c, legacy, m);
  }

  lemma SmallPlus(m: Message, a: Attribute)
    requires Small(m) && |m.attributes| < 5 && SmallAttribute(a)
    ensures Small(Plus(m, a))
  {
  }

  /** One more record drafts one more attribute, still in the caller's buffer. */
  lemma DraftMore(c: seq<Byte>, e: seq<Byte>, legacy: bool, m: Message, a: Attribute)
    requires Drafts(c, legacy, m) && Small(m) && |m.attributes| < 5 && SmallAttribute(a)
    requires RecordOk(ToRecord(legacy, a)) && e == c + RecordBytes(ToRecord(legacy, a))
    ensures Small(Plus(m, a)) && Drafts(e, legacy, Plus(m, a)) && |e| <= 360
  {
    hide Drafts, Printable, Print, RecordBytes, ToRecord, RecordOk, Small;
    SmallPlus(m, a);
    SmallPrints(legacy, Plus(m, a));
    DraftPlus(c, legacy, m, a);
    DraftLength(e, legacy, Plus(m, a));
  }

  method Begin(b: Buffer, legacy: bool, method_: nat, cls: nat, tid: seq<Byte>) returns (w: StunMessageBuilder)
    requires b.Valid() && b.data.Length >= MAX_MESSAGE_SIZE && method_ < 0x1000 && cls < 4 && |tid| == 16
    modifies b, b.data
    ensures fresh(w) && fresh(w.stream) && Holds(w, b, Message(method_, cls, tid, [])) && w.legacy == legacy
  {
    hide TypeField, PutU16;
    w := new StunMessageBuilder(b, legacy);
    w.AddHeader(method_, cls);
    w.AddTransactionId(tid);
    ghost var m := Message(method_, cls, tid, []);
    SmallPrints(legacy, m);
    assert ToRecords(legacy, []) == [];
    ghost var c := w.Contents();
    assert c[..2] == PutU16(TypeField(method_, cls)) && c[4..20] == tid && c[20..] == [];
  }

  method PutAttribute(w: StunMessageBuilder, b: Buffer, kind: nat, value: seq<Byte>, ghost m: Message)
    requires Holds(w, b, m) && |m.attributes| < 5 && SmallAttribute(Attribute(kind, value))
    modifies w.stream, b, b.data
    ensures Holds(w, b, Plus(m, Attribute(kind, value)))
  {
    hide Drafts, Small, RecordBytes, RecordOk, ToRecord;
    ghost var c := w.Contents();
    w.AddAttribute(kind, value);
    DraftMore(c, w.Contents(), w.legacy, m, Attribute(kind, value));
  }

  method PutAddress(w: StunMessageBuilder, b: Buffer, kind: nat, a: Address, ghost m: Message)
    requires Holds(w, b, m) && |m.attributes| < 5 && kind < 0x1_0000 && AddressOk(a)
    modifies w.stream, b, b.data
    ensures Holds(w, b, Plus(m, Attribute(kind, AddressValue(a))))
  {
    hide Drafts, Small, RecordBytes, RecordOk, ToRecord, AddressValue;
    ghost var c := w.Contents();
    w.AddMappedAddressImpl(kind, a);
    DraftMore(c, w.Contents(), w.legacy, m, Attribute(kind, AddressValue(a)));
  }

  method Finish(w: StunMessageBuilder, b: Buffer, ghost m: Message)
    requires Holds(w, b, m)
    modifies w.stream, b, b.data
    ensures Printable(w.legacy, m) && b.Valid() && b.data[..b.size] == Print(w.legacy, m)
    ensures w.Valid() && w.stream.buffer == b
  {
    hide Drafts, Small, Print, Printable, WithLength;
    SmallPrints(w.legacy, m);
    DraftPrints(w.Contents(), w.legacy, m);
    DraftBounds(w.Contents(), w.legacy, m);
    var ok := w.FixLengthField();
  }

  lemma DraftBounds(c: seq<Byte>, legacy: bool, m: Message)
    requires Drafts(c, legacy, m) && Small(m)
    ensures HEADER_SIZE <= |c| <= 360
  {
    DraftLength(c, legacy, m);
  }

  method BuildErrorResponse(q: Incoming, a: Answer, b: Buffer)
    requires IncomingOk(q) && AnswerOk(a) && a.Refusal? && b.Valid() && b.data.Length >= MAX_MESSAGE_SIZE
    modifies b, b.data
    ensures Printable(q.reader.header.legacy, AnswerMessage(q, a))
    ensures b.Valid() && b.data[..b.size] == Print(q.reader.header.legacy, AnswerMessage(q, a))
  {
    hide OneShot, Print, Printable, ErrorValue, Holds;
    IncomingUsable(q);
    var h := q.reader.header;
    var w := Begin(b, h.legacy, h.method_, FAILURE_CLASS, h.tid);
    ghost var m := Message(h.method_, FAILURE_CLASS, h.tid, []);
    PutError(w, b, a.code, m);
    m := Plus(m, Attribute(ERROR_CODE, ErrorValue(a.code, FAILED_REASON)));
    if a.code == STALE_NONCE || a.code == UNAUTHORIZED {
      if a.nonce != [] {
        PutAttribute(w, b, NONCE, a.nonce, m);
        m := Plus(m, Attribute(NONCE, a.nonce));
      }
      if a.realm != [] {
        PutAttribute(w, b, REALM, a.realm, m);
        m := Plus(m, Attribute(REALM, a.realm));
      }
    }
    assert m == AnswerMessage(q, a);
    Finish(w, b, m);
  }

  method PutError(w: StunMessageBuilder, b: Buffer, code: nat, ghost m: Message)
    requires Holds(w, b, m) && |m.attributes| < 5 && 300 <= code <= 600
    modifies w.stream, b, b.data
    ensures Holds(w, b, Plus(m, Attribute(ERROR_CODE, ErrorValue(code, FAILED_REASON))))
  {
    hide Drafts, Small, RecordBytes, RecordOk, ToRecord, ErrorValue;
    ghost var c := w.Contents();
    var ok := w.AddErrorCode(code, FAILED_REASON);
    DraftMore(c, w.Contents(), w.legacy, m, Attribute(ERROR_CODE, ErrorValue(code, FAILED_REASON)));
  }

  /** Mapped, origin, other and masked address, in this order. */
  method PutAddresses(w: StunMessageBuilder, b: Buffer, remote: Address, origin: Option<Address>,
                      other: Option<Address>, ghost m: Message)
    requires Holds(w, b, m) && m.attributes == [] && AddressOk(remote) && |m.tid| == 16
    requires (origin.Some? ==> AddressOk(origin.value)) && (other.Some? ==> AddressOk(other.value))
    modifies w.stream, b, b.data
    ensures Holds(w, b, m.(attributes := SuccessAttributes(w.legacy, remote, m.tid, origin, other)))
  {
    hide Masked, AddressValue, AddressOk, Drafts, Small;
    var legacy := w.legacy;
    ghost var n := m;
    PutAddress(w, b, MAPPED_ADDRESS, remote, n);
    n := Plus(n, Attribute(MAPPED_ADDRESS, AddressValue(remote)));
    if origin.Some? {
      PutAddress(w, b, OriginKind(legacy), origin.value, n);
      n := Plus(n, Attribute(OriginKind(legacy), AddressValue(origin.value)));
    }
    if other.Some? {
      PutAddress(w, b, OtherKind(legacy), other.value, n);
      n := Plus(n, Attribute(OtherKind(legacy), AddressValue(other.value)));
    }
    var masked := Masked(remote, w.tid);
    PutAddress(w, b, XorKind(legacy), masked, n);
    n := Plus(n, Attribute(XorKind(legacy), AddressValue(masked)));
    assert n == m.(attributes := SuccessAttributes(legacy, remote, m.tid, origin, other));
  }

  method BuildBindingResponse(s: Server, q: Incoming, a: Answer, b: Buffer)
    requires IncomingOk(q) && AnswerOk(a) && a.Success? && b.Valid() && b.data.Length >= MAX_MESSAGE_SIZE
    modifies b, b.data
    ensures Printable(q.reader.header.legacy, AnswerMessage(q, a))
    ensures b.Valid() && b.data[..b.size] == AnswerBytes(s, q, a)
  {
    hide OneShot, Print, Printable, Holds, SuccessAttributes, SealIntegrity;
    IncomingUsable(q);
    var h := q.reader.header;
    var w := Begin(b, h.legacy, BINDING, SUCCESS_CLASS, h.tid);
    PutAddresses(w, b, q.remote, a.origin, a.other, Message(BINDING, SUCCESS_CLASS, h.tid, []));
    ghost var m := AnswerMessage(q, a);
    Finish(w, b, m);
    SuccessSize(q, a);
    if a.key != [] {
      var ok := w.AddMessageIntegrity(s.hmac, a.key);
    }
  }

  /** Answers an accepted message into the buffer; what is not a request gets no answer. The buffer
      the caller supplied is the one that holds the answer: it is never replaced. */
  method ProcessRequest(s: Server, q: Incoming, b: Buffer) returns (answered: bool, role: Role, dest: Address)
    requires IncomingOk(q) && s.sockets.Ok() && b.Valid() && b.data.Length >= MAX_MESSAGE_SIZE
    modifies b, b.data
    ensures answered <==> Decide(s, q).Some?
    ensures b.Valid() && role == (if answered then AnswerRole(q, Decide(s, q).value) else q.role)
    ensures answered ==> dest == Destination(q)
    ensures answered ==> var a := Decide(s, q).value;
              && AnswerOk(a) && Printable(q.reader.header.legacy, AnswerMessage(q, a))
              && b.data[..b.size] == AnswerBytes(s, q, a)
  {
    hide IncomingOk, Print, AnswerMessage, SealIntegrity;
    role, dest := q.role, q.remote;
    var decision := Decide(s, q);
    answered := decision.Some?;
    if answered {
      DecidesOk(s, q);
      dest := Destination(q);
      var a := decision.value;
      if a.Success? {
        role := a.role;
        BuildBindingResponse(s, q, a, b);
      } else {
        BuildErrorResponse(q, a, b);
      }
    }
  }
}

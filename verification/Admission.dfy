/** Who is answered with what: the decision of the request handler from the request's attributes, the server's
    sockets and the provider's verdict (sections 6.1 of RFC 5780 and 10 of RFC 5389). */
module Admission {
  import opened Bits
  import opened Options
  import opened Wire
  import opened Incremental
  import opened Sealing
  import opened Addresses
  import opened StunBuilder
  import opened Handler
  import opened Replies

  // ---- What the request says ----

  /** `v` is the value of the last attribute of the kind. */
  ghost predicate Carries(q: Incoming, kind: nat, v: seq<Byte>)
    requires IncomingOk(q)
  {
    var fs, b := q.reader.attributes, q.reader.stream;
    exists i :: 0 <= i < |fs| && IsLast(fs, kind, i) && fs[i].offset + fs[i].size <= |b|
                && v == b[fs[i].offset..fs[i].offset + fs[i].size]
  }

  ghost predicate IsLast(fs: seq<Located>, kind: nat, i: nat)
    requires i < |fs|
  {
    fs[i].kind == kind && forall j :: i < j < |fs| ==> fs[j].kind != kind
  }

  ghost predicate HasKind(q: Incoming, kind: nat)
  {
    exists i :: 0 <= i < |q.reader.attributes| && q.reader.attributes[i].kind == kind
  }

  lemma ValueIff(q: Incoming, kind: nat, v: seq<Byte>)
    requires IncomingOk(q)
    ensures Handler.Value(q, kind) == Some(v) <==> Carries(q, kind, v)
    ensures Handler.Value(q, kind).Some? <==> HasKind(q, kind)
  {
    hide IncomingOk, LastIndex;
    IncomingUsable(q);
    var fs, b := q.reader.attributes, q.reader.stream;
    var i := LastIndex(fs, kind);
    if i >= 0 {
      assert Placed(b, fs[i]);
      assert IsLast(fs, kind, i);
      assert Handler.Value(q, kind) == Some(b[fs[i].offset..fs[i].offset + fs[i].size]);
    }
  }

  /** A RESPONSE-PORT of two bytes, not both zero. */
  ghost predicate AsksPort(q: Incoming, hi: nat, lo: nat)
    requires IncomingOk(q)
  {
    hi + lo > 0 && exists v :: Carries(q, 0x0027, v) && |v| == 2 && v[0] == hi && v[1] == lo
  }

  ghost predicate RedirectsReply(q: Incoming)
    requires IncomingOk(q)
  {
    exists hi: nat, lo: nat :: AsksPort(q, hi, lo)
  }

  /** A CHANGE-REQUEST of four bytes with this bit of its last byte set. */
  ghost predicate AsksChange(q: Incoming, bit: nat)
    requires IncomingOk(q)
  {
    exists v: seq<Byte> :: Carries(q, 0x0003, v) && |v| == 4 && BitAt(v[3] as int, bit)
  }

  ghost predicate ChangesIP(q: Incoming) requires IncomingOk(q) { AsksChange(q, 2) }

  ghost predicate ChangesPort(q: Incoming) requires IncomingOk(q) { AsksChange(q, 1) }

  lemma PortIff(q: Incoming)
    requires IncomingOk(q)
    ensures ResponsePort(q) != 0 <==> RedirectsReply(q)
    ensures forall hi: nat, lo: nat :: AsksPort(q, hi, lo) ==> ResponsePort(q) == 256 * hi + lo
  {
    hide IncomingOk, Handler.Value, Carries;
    var v := Handler.Value(q, 0x0027);
    forall x | Carries(q, 0x0027, x) ensures v == Some(x) {
      ValueIff(q, 0x0027, x);
    }
    if v.Some? {
      ValueIff(q, 0x0027, v.value);
      if |v.value| == 2 && ResponsePort(q) != 0 {
        assert AsksPort(q, v.value[0], v.value[1]);
      }
    }
  }

  lemma ChangeIff(q: Incoming)
    requires IncomingOk(q)
    ensures ChangeRequest(q) == (ChangesIP(q), ChangesPort(q))
  {
    hide IncomingOk, Handler.Value, Carries;
    var v := Handler.Value(q, 0x0003);
    forall x | Carries(q, 0x0003, x) ensures v == Some(x) {
      ValueIff(q, 0x0003, x);
    }
    if v.Some? {
      ValueIff(q, 0x0003, v.value);
      if |v.value| == 4 {
        LowBits(v.value[3]);
      }
    }
  }

  lemma LowBits(v: Byte)
    ensures BitAt(v, 2) <==> v / 4 % 2 == 1
    ensures BitAt(v, 1) <==> v / 2 % 2 == 1
  {
    EightBits(v);
  }

  /** A text attribute of at most 64 bytes, up to its first zero byte; empty when there is none. */
  lemma TextIs(q: Incoming, kind: nat)
    requires IncomingOk(q)
    ensures forall v, n: nat :: Carries(q, kind, v) && |v| <= 64 && EndsAt(v, n) ==> TextOf(q, kind) == v[..n]
    ensures forall v :: Carries(q, kind, v) && |v| > 64 ==> TextOf(q, kind) == []
    ensures !HasKind(q, kind) ==> TextOf(q, kind) == []
  {
    hide IncomingOk, Handler.Value, Carries, HasKind;
    ValueIff(q, kind, []);
    forall v | Carries(q, kind, v) ensures Handler.Value(q, kind) == Some(v) {
      ValueIff(q, kind, v);
    }
    forall v, n: nat | Carries(q, kind, v) && |v| <= 64 && EndsAt(v, n) ensures TextOf(q, kind) == v[..n] {
      CStringIs(v, n);
    }
  }

  /** No zero byte before `n`, and the value ends there or has one. */
  ghost predicate EndsAt(v: seq<Byte>, n: nat)
  {
    n <= |v| && (forall i :: 0 <= i < n ==> v[i] != 0) && (n < |v| ==> v[n] == 0)
  }

  lemma {:induction false} CStringIs(v: seq<Byte>, n: nat)
    requires EndsAt(v, n)
    ensures CString(v) == v[..n]
    decreases |v|
  {
    if v != [] && v[0] != 0 {
      assert v[..n] == [v[0]] + v[1..][..n - 1];
      CStringIs(v[1..], n - 1);
    }
  }

  // ---- Roles ----

  predicate AlternateIP(r: Role) { r == AP || r == AA }

  predicate AlternatePort(r: Role) { r == PA || r == AA }

  /** The socket the answer is asked to come from. */
  function RoleAt(ip: bool, port: bool): Role
  {
    if ip then if port then AA else AP else if port then PA else PP
  }

  ghost function AskedRole(q: Incoming): Role
    requires IncomingOk(q)
  {
    RoleAt(AlternateIP(q.role) != ChangesIP(q), AlternatePort(q.role) != ChangesPort(q))
  }

  // ---- What the provider says ----

  ghost function Presented(q: Incoming): Credentials
    requires IncomingOk(q)
  {
    Credentials(TextOf(q, 0x0006), TextOf(q, 0x0014), TextOf(q, 0x0015), TextOf(q, 0x0007), HasKind(q, 0x0008))
  }

  ghost function Verdict(s: Server, q: Incoming): AuthReply
    requires IncomingOk(q) && s.auth.Some?
  {
    s.auth.value(Presented(q))
  }

  /** The password, or the MD5 of user, realm and password with colons between. */
  ghost function ProviderKey(s: Server, q: Incoming): seq<Byte>
    requires IncomingOk(q) && s.auth.Some?
  {
    var r := Verdict(s, q);
    if r.longTerm then s.md5(TextOf(q, 0x0006) + [0x3A] + TextOf(q, 0x0014) + [0x3A] + r.password) else r.password
  }

  /** The request proves that its sender knows the key. */
  ghost predicate Proves(s: Server, q: Incoming)
    requires IncomingOk(q) && s.auth.Some?
  {
    IncomingUsable(q);
    IntegrityValid(s.hmac, ProviderKey(s, q), q.reader.stream, q.reader.attributes)
  }

  ghost predicate LetIn(s: Server, q: Incoming)
    requires IncomingOk(q)
  {
    s.auth.Some? ==>
      Verdict(s, q).verdict.Allow? || (Verdict(s, q).verdict.AllowConditional? && Proves(s, q))
  }

  /** A Binding request, its reply not redirected from a connection. */
  ghost predicate Proper(q: Incoming)
    requires IncomingOk(q)
  {
    q.reader.header.cls == 0 && q.reader.header.method_ == 1 && !(RedirectsReply(q) && q.connectionOriented)
  }

  /** No padding together with a redirected reply, and the socket asked for is there. */
  ghost predicate Servable(s: Server, q: Incoming)
    requires IncomingOk(q)
  {
    && !(RedirectsReply(q) && HasKind(q, 0x0026))
    && (ChangesIP(q) || ChangesPort(q) ==> s.sockets.At(AskedRole(q)).valid && !q.connectionOriented)
  }

  lemma PresentedIs(q: Incoming)
    requires IncomingOk(q)
    ensures LastIndex(q.reader.attributes, INTEGRITY) != -1 <==> HasKind(q, 0x0008)
  {
    hide IncomingOk;
    var fs := q.reader.attributes;
    var i := LastIndex(fs, INTEGRITY);
    assert i >= 0 ==> fs[i].kind == 0x0008;
    hide LastIndex;
  }

  lemma RoleIs(q: Incoming)
    requires IncomingOk(q)
    ensures OutputRole(q) == AskedRole(q)
  {
    hide IncomingOk, ChangesIP, ChangesPort, ChangeRequest;
    ChangeIff(q);
  }

  // ---- Who is let in ----

  lemma ClearedIff(s: Server, q: Incoming)
    requires IncomingOk(q)
    ensures ValidateAuth(s, q).Cleared? <==> LetIn(s, q)
    ensures LetIn(s, q) ==>
              ValidateAuth(s, q).key
              == if s.auth.Some? && Verdict(s, q).verdict.AllowConditional? then ProviderKey(s, q) else []
  {
    hide IncomingOk, TextOf, IntegrityValid, LastIndex, HasKind;
    PresentedIs(q);
  }

  lemma DeniedWith(s: Server, q: Incoming)
    requires IncomingOk(q) && !LetIn(s, q)
    ensures var r := Verdict(s, q);
            ValidateAuth(s, q) == match r.verdict
                                  case Failed => Denied(400, [], [])
                                  case Reject => Denied(400, [], [])
                                  case StaleNonce => Denied(438, r.realm, r.nonce)
                                  case _ => Denied(401, r.realm, r.nonce)
  {
    hide IncomingOk, TextOf, IntegrityValid, LastIndex, HasKind;
    PresentedIs(q);
  }

  /** A request succeeds if and only if it is a proper Binding request, its sender is let in, and what it asks for
      can be done; the answer then comes from the socket asked for and is sealed with the provider's key. */
  lemma SucceedsIff(s: Server, q: Incoming)
    requires IncomingOk(q)
    ensures Decide(s, q).Some? && Decide(s, q).value.Success? <==> Proper(q) && LetIn(s, q) && Servable(s, q)
    ensures Proper(q) && LetIn(s, q) && Servable(s, q) ==>
              && Decide(s, q).value.role == AskedRole(q)
              && Decide(s, q).value.key
                 == if s.auth.Some? && Verdict(s, q).verdict.AllowConditional? then ProviderKey(s, q) else []
  {
    hide IncomingOk, Handler.Value, ResponsePort, ChangeRequest, OutputRole, ValidateAuth, LetIn, HasKind, AskedRole;
    hide RedirectsReply, ChangesIP, ChangesPort, OriginAddress, OtherAddress, ProviderKey, Verdict;
    PortIff(q);
    ChangeIff(q);
    RoleIs(q);
    ClearedIff(s, q);
    ValueIff(q, 0x0026, []);
  }

  /** The verdict on a proper request that is not let in. */
  ghost predicate TurnedAway(s: Server, q: Incoming, code: nat)
    requires IncomingOk(q)
  {
    && Proper(q) && !LetIn(s, q)
    && match Verdict(s, q).verdict
       case StaleNonce => code == 438
       case Unauthorized => code == 401
       case AllowConditional => code == 401
       case Allow => false
       case _ => code == 400
  }

  /** Otherwise a request is refused: with the provider's realm and nonce by 438 when the nonce is stale and by 401
      when the sender is unauthorized or proves nothing, and by 400 in every other case. Only what is no request is
      not answered. */
  lemma RefusedWith(s: Server, q: Incoming)
    requires IncomingOk(q)
    ensures Decide(s, q).None? <==> q.reader.header.cls != 0
    ensures forall code :: TurnedAway(s, q, code) && code != 400 ==>
              Decide(s, q) == Some(Refusal(code, Verdict(s, q).realm, Verdict(s, q).nonce))
    ensures q.reader.header.cls == 0 && (TurnedAway(s, q, 400) || !Proper(q) || (LetIn(s, q) && !Servable(s, q))) ==>
              Decide(s, q) == Some(Refusal(400, [], []))
  {
    hide IncomingOk, Handler.Value, ResponsePort, ChangeRequest, OutputRole, ValidateAuth, LetIn, HasKind, AskedRole;
    hide RedirectsReply, ChangesIP, ChangesPort, OriginAddress, OtherAddress, ProviderKey, Verdict;
    PortIff(q);
    ChangeIff(q);
    RoleIs(q);
    ClearedIff(s, q);
    if !LetIn(s, q) {
      DeniedWith(s, q);
    }
    ValueIff(q, 0x0026, []);
  }

  /** A successful answer names the address of the socket it comes from, when that is known. */
  lemma OriginIs(s: Server, q: Incoming)
    requires IncomingOk(q) && Decide(s, q).Some? && Decide(s, q).value.Success?
    ensures var a := Decide(s, q).value;
            var configured := s.sockets.At(a.role).addr;
            a.origin == if !IsIPZero(configured) then Some(configured)
                        else if a.role == q.role && !IsIPZero(q.local) then Some(q.local) else None
  {
    hide IncomingOk, Handler.Value, ResponsePort, ChangeRequest, OutputRole, ValidateAuth, OtherAddress, IsIPZero;
  }

  /** The reply goes to the sender, at the port it asked for if it asked for one. */
  lemma ReplyGoesTo(q: Incoming)
    requires IncomingOk(q)
    ensures Destination(q).ip == q.remote.ip && Destination(q).v6 == q.remote.v6
    ensures !RedirectsReply(q) || q.connectionOriented ==> Destination(q) == q.remote
    ensures forall hi: nat, lo: nat :: AsksPort(q, hi, lo) && !q.connectionOriented ==> Destination(q).port == [hi, lo]
  {
    hide ResponsePort, AsksPort, RedirectsReply;
    PortIff(q);
    forall hi: nat, lo: nat | AsksPort(q, hi, lo) && !q.connectionOriented ensures Destination(q).port == [hi, lo] {
      AskedBytes(q, hi, lo);
    }
  }

  lemma AskedBytes(q: Incoming, hi: nat, lo: nat)
    requires IncomingOk(q) && AsksPort(q, hi, lo)
    ensures hi < 256 && lo < 256 && 256 * hi + lo > 0
  {
    hide IncomingOk, Carries;
  }

  // ---- What the refused client reads ----

  lemma {:induction false} CStringOf(text: Text, k: nat)
    ensures CString(text + Blank(k)) == text
    decreases |text|
  {
    if text == [] {
      assert [] + Blank(k) == Blank(k);
    } else {
      assert (text + Blank(k))[1..] == text[1..] + Blank(k);
      CStringOf(text[1..], k);
    }
  }

  lemma ReadBackText(legacy: bool, text: Text)
    ensures CString(ReadBack(legacy, text)) == text
  {
    CStringOf(text, Pad(|text|));
    CStringOf(text, 0);
    assert text + Blank(0) == text;
  }

  /** The text under the kind in bytes that were read; empty when there is none. */
  function TextIn(b: seq<Byte>, fs: seq<Located>, kind: nat): seq<Byte>
    requires Usable(b, fs)
  {
    var v := Find(b, fs, kind);
    if v.None? then [] else CString(v.value)
  }

  lemma RefusalKinds(code: nat, realm: Text, nonce: Text, kind: nat)
    requires code <= 600
    ensures var all := [Attribute(ERROR_CODE, ErrorValue(code, FAILED_REASON))] + Challenge(code, realm, nonce);
            var i := LastOf(all, kind);
            && (kind == ERROR_CODE ==> i == 0)
            && (kind == NONCE || kind == REALM ==>
                  var text := if code != 401 && code != 438 then [] else if kind == NONCE then nonce else realm;
                  if text == [] then i == -1 else i > 0 && all[i].value == text)
  {
    hide LastOf, ErrorValue;
    var all := [Attribute(ERROR_CODE, ErrorValue(code, FAILED_REASON))] + Challenge(code, realm, nonce);
    assert all[0].kind == ERROR_CODE;
    if code == 401 || code == 438 {
      var n := |Unless(NONCE, nonce)|;
      assert nonce != [] ==> all[1] == Attribute(NONCE, nonce);
      assert realm != [] ==> all[n + 1] == Attribute(REALM, realm);
    }
  }

  /** The message of a refusal, read back. */
  lemma RefusalReadBack(legacy: bool, m: Message, code: nat, realm: Text, nonce: Text)
    requires Printable(legacy, m) && code <= 600
    requires m.attributes == [Attribute(ERROR_CODE, ErrorValue(code, FAILED_REASON))] + Challenge(code, realm, nonce)
    ensures var b := Print(legacy, m);
            var fs := OneShot(true, b).attributes;
            && Usable(b, fs)
            && Find(b, fs, 0x0009) == Some(ReadBack(legacy, ErrorValue(code, FAILED_REASON)))
            && TextIn(b, fs, 0x0015) == (if code == 401 || code == 438 then nonce else [])
            && TextIn(b, fs, 0x0014) == (if code == 401 || code == 438 then realm else [])
  {
    hide Printable, Print, OneShot, Challenge, Find, CString, LastOf, ReadBack, Usable, ErrorValue;
    FindPrinted(legacy, m, 0x0009);
    FindPrinted(legacy, m, 0x0015);
    FindPrinted(legacy, m, 0x0014);
    RefusalKinds(code, realm, nonce, 0x0009);
    RefusalKinds(code, realm, nonce, 0x0015);
    RefusalKinds(code, realm, nonce, 0x0014);
    ReadBackText(legacy, nonce);
    ReadBackText(legacy, realm);
  }

  /** Whoever gets a refusal reads the code it was refused with and, for 401 and 438, the provider's nonce and realm. */
  lemma RefusalIsReadable(s: Server, q: Incoming)
    requires IncomingOk(q) && s.sockets.Ok() && Decide(s, q).Some? && Decide(s, q).value.Refusal?
    ensures var a := Decide(s, q).value;
            && AnswerOk(a) && Printable(q.reader.header.legacy, AnswerMessage(q, a))
            && var b := AnswerBytes(s, q, a);
            var r := OneShot(true, b);
            && AnswersHeader(q, a, r) && Usable(b, r.attributes)
            && (var v := Find(b, r.attributes, 0x0009);
                v.Some? && |v.value| >= 10 && v.value[..10] == [0, 0, a.code / 100, a.code % 100] + FAILED_REASON)
            && TextIn(b, r.attributes, 0x0015) == (if a.code == 401 || a.code == 438 then a.nonce else [])
            && TextIn(b, r.attributes, 0x0014) == (if a.code == 401 || a.code == 438 then a.realm else [])
  {
    AnswerIsReadable(s, q);
    hide IncomingOk, Decide, Printable, Print, OneShot, Challenge, TellsAddresses, AnswersHeader, Find, TextIn;
    hide ReadBack, Usable, ErrorValue;
    var a := Decide(s, q).value;
    RefusalReadBack(q.reader.header.legacy, AnswerMessage(q, a), a.code, a.realm, a.nonce);
    CodeReadBack(q.reader.header.legacy, a.code);
  }

  lemma CodeReadBack(legacy: bool, code: nat)
    requires code <= 600
    ensures var v := ReadBack(legacy, ErrorValue(code, FAILED_REASON));
            |v| >= 10 && v[..10] == [0, 0, code / 100, code % 100] + FAILED_REASON
  {
  }

  // ---- What the admitted client reads of the server ----

  /** A successful answer is a printed message: its attributes, and the seal if there is one. */
  lemma AnswerAsMessage(s: Server, q: Incoming, a: Answer) returns (m: Message)
    requires IncomingOk(q) && AnswerOk(a) && a.Success?
    ensures Printable(q.reader.header.legacy, AnswerMessage(q, a)) && Printable(q.reader.header.legacy, m)
    ensures AnswerBytes(s, q, a) == Print(q.reader.header.legacy, m)
    ensures var n := |AnswerMessage(q, a).attributes|;
            && n <= |m.attributes| && m.attributes[..n] == AnswerMessage(q, a).attributes
            && forall j :: n <= j < |m.attributes| ==> m.attributes[j].kind == INTEGRITY
  {
    AnswerFits(s, q, a);
    hide IncomingOk, Printable, Print, AnswerMessage, SealIntegrity, Fits, Drafts;
    var legacy := q.reader.header.legacy;
    m := AnswerMessage(q, a);
    if a.key != [] {
      SealFits(q, a);
      PrintDrafts(legacy, m);
      var mac := IntegrityPrints(s.hmac, a.key, Print(legacy, m), legacy, m);
      m := Plus(m, mac);
    }
  }

  /** The client reads the origin that was decided. */
  lemma OriginIsReadable(s: Server, q: Incoming, a: Answer)
    requires IncomingOk(q) && AnswerOk(a) && a.Success?
    ensures Printable(q.reader.header.legacy, AnswerMessage(q, a))
    ensures var b := AnswerBytes(s, q, a);
            var fs := OneShot(true, b).attributes;
            Usable(b, fs) && FindAddress(b, fs, if q.reader.header.legacy then 0x0004 else 0x802B) == a.origin
  {
    var m := AnswerAsMessage(s, q, a);
    OriginPlace(q, a, m.attributes);
    hide IncomingOk, Printable, Print, AnswerMessage, AnswerBytes, OneShot, LastOf, Find, AddressValue, ReadAddress;
    var legacy := q.reader.header.legacy;
    FindPrinted(legacy, m, OriginKind(legacy));
    if a.origin.Some? {
      AddressPrinted(legacy, m, 1, a.origin.value);
    }
  }

  lemma OriginPlace(q: Incoming, a: Answer, attributes: seq<Attribute>)
    requires IncomingOk(q) && AnswerOk(a) && a.Success?
    requires var n := |AnswerMessage(q, a).attributes|;
             && n <= |attributes| && attributes[..n] == AnswerMessage(q, a).attributes
             && forall j :: n <= j < |attributes| ==> attributes[j].kind == INTEGRITY
    ensures var kind := OriginKind(q.reader.header.legacy);
            && LastOf(attributes, kind) == (if a.origin.Some? then 1 else -1)
            && (a.origin.Some? ==> attributes[1] == Attribute(kind, AddressValue(a.origin.value)))
  {
    hide OneShot, LastOf, AddressValue, Masked;
    IncomingUsable(q);
    var own, kind := AnswerMessage(q, a).attributes, OriginKind(q.reader.header.legacy);
    var last := if a.origin.Some? then 1 else -1;
    forall j | last < j < |attributes| ensures attributes[j].kind != kind {
      if j < |own| {
        assert attributes[j] == own[j];
      }
    }
    assert a.origin.Some? ==> attributes[1] == attributes[..|own|][1] == own[1];
    LastOfIs(attributes, kind, last);
  }

  /** And the other addresses under the kinds of the format the request came in: MAPPED-ADDRESS, the masked address
      under 0x0020 or, for RFC 3489, 0x8020, and the opposite socket under 0x802C or 0x0005. */
  lemma AddressesAreReadable(s: Server, q: Incoming, a: Answer)
    requires IncomingOk(q) && AnswerOk(a) && a.Success?
    ensures Printable(q.reader.header.legacy, AnswerMessage(q, a)) && |q.reader.header.tid| == 16
    ensures var b := AnswerBytes(s, q, a);
            var fs, legacy := OneShot(true, b).attributes, q.reader.header.legacy;
            && Usable(b, fs)
            && FindAddress(b, fs, 0x0001) == Some(q.remote)
            && FindAddress(b, fs, if legacy then 0x8020 else 0x0020) == Some(Masked(q.remote, q.reader.header.tid))
            && FindAddress(b, fs, if legacy then 0x0005 else 0x802C) == a.other
  {
    var m := AnswerAsMessage(s, q, a);
    var n := |AnswerMessage(q, a).attributes|;
    assert m.attributes == AnswerMessage(q, a).attributes + m.attributes[n..];
    SuccessMessage(q, a, m.attributes[n..]);
    hide IncomingOk, Printable, Print, AnswerMessage, AnswerBytes, OneShot, Find, IsSuccess, Masked;
    SameIsSuccess(AnswerMessage(q, a), m, q.reader.header.legacy, q.remote, q.reader.header.tid, a.other);
    AddressesReadBack(q.reader.header.legacy, m, q.remote, q.reader.header.tid, a.other);
  }

  lemma SameIsSuccess(l: Message, m: Message, legacy: bool, remote: Address, tid: seq<Byte>, other: Option<Address>)
    requires AddressOk(remote) && |tid| == 16 && (other.Some? ==> AddressOk(other.value))
    requires IsSuccess(l.(attributes := m.attributes), legacy, remote, tid, other)
    ensures IsSuccess(m, legacy, remote, tid, other)
  {
    hide LastOf, AddressValue, Masked;
  }

  lemma AddressesReadBack(legacy: bool, m: Message, remote: Address, tid: seq<Byte>, other: Option<Address>)
    requires Printable(legacy, m) && AddressOk(remote) && |tid| == 16 && (other.Some? ==> AddressOk(other.value))
    requires IsSuccess(m, legacy, remote, tid, other)
    ensures var b := Print(legacy, m);
            var fs := OneShot(true, b).attributes;
            && Usable(b, fs)
            && FindAddress(b, fs, 0x0001) == Some(remote)
            && FindAddress(b, fs, if legacy then 0x8020 else 0x0020) == Some(Masked(remote, tid))
            && FindAddress(b, fs, if legacy then 0x0005 else 0x802C) == other
  {
    hide Printable, Print, OneShot, LastOf, Find, AddressValue, ReadAddress, Masked;
    AddressPrinted(legacy, m, LastOf(m.attributes, MAPPED_ADDRESS), remote);
    AddressPrinted(legacy, m, LastOf(m.attributes, XorKind(legacy)), Masked(remote, tid));
    FindPrinted(legacy, m, OtherKind(legacy));
    if other.Some? {
      AddressPrinted(legacy, m, LastOf(m.attributes, OtherKind(legacy)), other.value);
    }
  }
}

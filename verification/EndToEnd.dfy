/** The discovery client and the request handler together. */
module EndToEnd {
  import opened Bits
  import opened Options
  import opened Wire
  import opened Incremental
  import opened Addresses
  import opened Sealing
  import opened Handler
  import opened Replies
  import opened Discovery

  /** A client whose test sent the request `q` reads, from the server's successful answer, the address
      its request came from and the server's opposite address, if it announces one. */
  lemma ClientLearnsItsAddress(s: Server, q: Incoming, c: Client, t: Test)
    requires IncomingOk(q) && s.sockets.Ok() && Decide(s, q).Some? && Decide(s, q).value.Success?
    requires q.reader.header.tid == TidOf(c, t)
    ensures AnswerOk(Decide(s, q).value) && Printable(q.reader.header.legacy, AnswerMessage(q, Decide(s, q).value))
    ensures ReadResponse(c, t, AnswerBytes(s, q, Decide(s, q).value)) == Ours(Some(q.remote), OtherAddress(s, q))
  {
    AnswerIsReadable(s, q);
    OtherComesThrough(s, q);
    hide IncomingOk, Decide, AnswerMessage, Printable, OneShot, Print, SealIntegrity, OtherAddress, TidOf, GetMapped;
    hide GetXorMapped, GetOther;
  }

  /** In a response of any attributes the masked address is what the client learns: of the kind RFC 5389 gives it if it
      is there, else of the optional kind, and only without either the address that is not masked. */
  lemma MaskedAddressWins(c: Client, t: Test, legacy: bool, m: Message, i: nat, a: Address)
    requires Printable(legacy, m) && m.tid == TidOf(c, t) && AddressOk(a) && i < |m.attributes|
    requires LastOf(m.attributes, m.attributes[i].kind) == i
    requires m.attributes[i].value
             == AddressValue(if m.attributes[i].kind == MAPPED_ADDRESS then a else Masked(a, m.tid))
    requires || m.attributes[i].kind == 0x0020
             || (m.attributes[i].kind == 0x8020 && LastOf(m.attributes, 0x0020) == -1)
             || (m.attributes[i].kind == 0x0001 && LastOf(m.attributes, 0x0020) == LastOf(m.attributes, 0x8020) == -1)
    ensures ReadResponse(c, t, Print(legacy, m)).Ours? && ReadResponse(c, t, Print(legacy, m)).mapped == Some(a)
  {
    MaskedTwice(a, m.tid);
    hide Print, Printable, OneShot, LastOf, Find, ReadAddress, AddressValue, Masked, TidOf, GetOther, Locate, ToRecords;
    PrintAccepted(legacy, m);
    AddressPrinted(legacy, m, i, if m.attributes[i].kind == MAPPED_ADDRESS then a else Masked(a, m.tid));
    FindPrinted(legacy, m, 0x0020);
    FindPrinted(legacy, m, 0x8020);
  }

  lemma TakesBinding(c: Client, b: seq<Byte>, local: Address, mapped: Address, other: Option<Address>)
    requires AddressesOk(c) && AddressOk(local) && c.index == 0 && Binding !in c.completed
    requires ReadResponse(c, Binding, b) == Ours(Some(mapped), other)
    ensures var d := ProcessResponse(c, b, local);
            && d.results.bindingSuccess && d.results.mapped == mapped && (d.results.isDirect <==> local == mapped)
            && (d.results.hasOther <==> other.Some?) && (other.Some? ==> d.results.aa == other.value)
  {
    hide ReadResponse, SameIPAndPort, SetPort, Port;
    assert Current(c) == Binding;
    SameIsEqual(local, mapped);
  }

  /** So a direct client, and only a direct one, is told apart: after the answer to its binding request
      it calls itself direct exactly when its own address is the one the server saw. */
  lemma DirectIffUntranslated(s: Server, q: Incoming, c: Client, local: Address)
    requires IncomingOk(q) && s.sockets.Ok() && Decide(s, q).Some? && Decide(s, q).value.Success?
    requires AddressesOk(c) && AddressOk(local) && c.index == 0 && Binding !in c.completed
    requires q.reader.header.tid == TidOf(c, Binding)
    ensures AnswerOk(Decide(s, q).value) && Printable(q.reader.header.legacy, AnswerMessage(q, Decide(s, q).value))
    ensures var d := ProcessResponse(c, AnswerBytes(s, q, Decide(s, q).value), local);
            && d.results.bindingSuccess && d.results.mapped == q.remote && (d.results.isDirect <==> local == q.remote)
            && (d.results.hasOther <==> OtherAddress(s, q).Some?)
            && (d.results.hasOther ==> d.results.aa == s.sockets.At(Opposite(q.role)).addr)
  {
    hide IncomingOk, Decide, AnswerMessage, Printable, ReadResponse, AnswerBytes, TidOf, ProcessResponse, AddressesOk;
    hide Opposite;
    ClientLearnsItsAddress(s, q, c, Binding);
    TakesBinding(c, AnswerBytes(s, q, Decide(s, q).value), local, q.remote, OtherAddress(s, q));
  }

  // ---- The client's requests, from its bytes to what it learns ----

  /** Change IP is 4 and change port is 2 in the last byte. */
  function ChangeFlags(t: Test): Byte
  {
    match t case Filtering2 => 6 case Filtering3 => 2 case _ => 0
  }

  function RequestMessage(t: Test, tid: seq<Byte>): Message
  {
    Message(BINDING, REQUEST_CLASS, tid, [Attribute(CHANGE_REQUEST, [0, 0, 0, ChangeFlags(t)])])
  }

  /** The socket a test wants to hear from. */
  function ProbedRole(t: Test, role: Role): Role
  {
    match t case Filtering2 => Opposite(role) case Filtering3 => SwapPort(role) case _ => role
  }

  lemma RequestPrints(t: Test, tid: seq<Byte>)
    requires |tid| == 16
    ensures Printable(false, RequestMessage(t, tid))
  {
  }

  /** The request of test `t` as it arrives over UDP on the socket of `role`. */
  function Arrives(t: Test, tid: seq<Byte>, role: Role, local: Address, remote: Address): Incoming
    requires |tid| == 16
  {
    RequestPrints(t, tid);
    Incoming(role, local, remote, OneShot(true, Print(false, RequestMessage(t, tid))), false)
  }

  lemma ArrivesIntact(t: Test, tid: seq<Byte>, role: Role, local: Address, remote: Address)
    requires |tid| == 16 && AddressOk(local) && AddressOk(remote)
    ensures var q := Arrives(t, tid, role, local, remote);
            && IncomingOk(q) && q.reader.header.cls == REQUEST_CLASS && q.reader.header.method_ == BINDING
            && q.reader.header.tid == tid
            && Handler.Value(q, CHANGE_REQUEST) == Some([0, 0, 0, ChangeFlags(t)])
            && Handler.Value(q, RESPONSE_PORT) == None && Handler.Value(q, PADDING) == None
  {
    hide Print, Printable, OneShot, LastOf, Find, Locate, ToRecords;
    RequestPrints(t, tid);
    var m := RequestMessage(t, tid);
    PrintAccepted(false, m);
    assert m.attributes[0].kind == CHANGE_REQUEST;
    FindPrinted(false, m, CHANGE_REQUEST);
    FindPrinted(false, m, RESPONSE_PORT);
    FindPrinted(false, m, PADDING);
    assert OneShot(true, Print(false, m)).allowLegacy by {
      KeepsLegacy(Print(false, m));
    }
  }

  lemma KeepsLegacy(b: seq<Byte>)
    ensures OneShot(true, b).allowLegacy
  {
  }

  /** Between a client and a server that has all four sockets and asks for no credentials: every test's
      request is answered, from the socket that test probes, and from the answer the client reads the
      address its request came from and the server's opposite address. */
  lemma TestIsAnswered(s: Server, c: Client, t: Test, role: Role, local: Address, remote: Address)
    requires s.sockets.Ok() && s.sockets.Complete() && s.auth.None? && AddressOk(local) && AddressOk(remote)
    requires |TidOf(c, t)| == 16
    ensures var q := Arrives(t, TidOf(c, t), role, local, remote);
            && IncomingOk(q) && Decide(s, q).Some? && Decide(s, q).value.Success?
            && AnswerRole(q, Decide(s, q).value) == ProbedRole(t, role) && Destination(q) == remote
            && AnswerOk(Decide(s, q).value) && Printable(q.reader.header.legacy, AnswerMessage(q, Decide(s, q).value))
            && ReadResponse(c, t, AnswerBytes(s, q, Decide(s, q).value)) == Ours(Some(remote), OtherAddress(s, q))
  {
    hide IncomingOk, Handler.Value, AnswerMessage, Printable, OneShot, ReadResponse, AnswerBytes, TidOf, Arrives;
    hide OriginAddress, OtherAddress;
    var q := Arrives(t, TidOf(c, t), role, local, remote);
    ArrivesIntact(t, TidOf(c, t), role, local, remote);
    ArrivesFrom(t, TidOf(c, t), role, local, remote);
    RequestIsDecided(s, q, t);
    ClientLearnsItsAddress(s, q, c, t);
  }

  lemma ArrivesFrom(t: Test, tid: seq<Byte>, role: Role, local: Address, remote: Address)
    requires |tid| == 16
    ensures var q := Arrives(t, tid, role, local, remote);
            q.role == role && q.remote == remote && !q.connectionOriented
  {
  }

  lemma RequestIsDecided(s: Server, q: Incoming, t: Test)
    requires s.sockets.Complete() && s.auth.None? && IncomingOk(q) && !q.connectionOriented
    requires q.reader.header.cls == REQUEST_CLASS && q.reader.header.method_ == BINDING
    requires Handler.Value(q, CHANGE_REQUEST) == Some([0, 0, 0, ChangeFlags(t)])
    requires Handler.Value(q, RESPONSE_PORT) == None && Handler.Value(q, PADDING) == None
    ensures Decide(s, q).Some? && Decide(s, q).value.Success?
    ensures AnswerRole(q, Decide(s, q).value) == ProbedRole(t, q.role) && Destination(q) == q.remote
  {
    hide IncomingOk, Handler.Value, OriginAddress, OtherAddress;
    assert ChangeRequest(q) == (t == Filtering2, t == Filtering2 || t == Filtering3);
  }
}

/** CStunRequestHandler: what a server answers to an accepted message (section 6.1 of RFC 5780). */
module Handler {
  import opened Bits
  import opened Options
  import opened Wire
  import opened Incremental
  import opened Sealing
  import opened Addresses
  import opened StunBuilder

  // ---- Socket roles: primary or alternate address, primary or alternate port ----

  datatype Role = PP | PA | AP | AA

  function SwapPort(r: Role): Role {
    match r case PP => PA case PA => PP case AP => AA case AA => AP
  }

  function SwapIP(r: Role): Role {
    match r case PP => AP case PA => AA case AP => PP case AA => PA
  }

  function Opposite(r: Role): Role {
    SwapIP(SwapPort(r))
  }

  datatype Transport = Transport(valid: bool, addr: Address)

  /** The server's own addresses, by role. */
  datatype Sockets = Sockets(pp: Transport, pa: Transport, ap: Transport, aa: Transport) {
    function At(r: Role): Transport {
      match r case PP => pp case PA => pa case AP => ap case AA => aa
    }

    predicate Complete() {
      pp.valid && pa.valid && ap.valid && aa.valid
    }

    predicate Ok() {
      AddressOk(pp.addr) && AddressOk(pa.addr) && AddressOk(ap.addr) && AddressOk(aa.addr)
    }
  }

  // ---- Authentication, by a provider supplied from outside ----

  /** A C string that fits the fixed arrays for names, realms, nonces and passwords. */
  type Text = s: seq<Byte> | |s| <= 64 && 0 !in s

  datatype Credentials = Credentials(user: Text, realm: Text, nonce: Text, legacyPassword: Text, integrityPresent: bool)

  datatype Verdict = Failed | Allow | AllowConditional | StaleNonce | Reject | Unauthorized

  datatype AuthReply = AuthReply(verdict: Verdict, longTerm: bool, password: Text, realm: Text, nonce: Text)

  type Digest = s: seq<Byte> | |s| == 16 witness Blank(16)

  datatype Server = Server(sockets: Sockets, auth: Option<Credentials -> AuthReply>, hmac: MacFn,
                           md5: seq<Byte> -> Digest)

  const USERNAME: nat := 0x0006
  const LEGACY_PASSWORD: nat := 0x0007
  const REALM: nat := 0x0014
  const NONCE: nat := 0x0015
  const PADDING: nat := 0x0026
  const RESPONSE_PORT: nat := 0x0027

  const REQUEST_CLASS: nat := 0
  const SUCCESS_CLASS: nat := 2
  const FAILURE_CLASS: nat := 3
  const BINDING: nat := 1

  const BAD_REQUEST: nat := 400
  const UNAUTHORIZED: nat := 401
  const STALE_NONCE: nat := 438

  // ---- The request ----

  datatype Incoming = Incoming(role: Role, local: Address, remote: Address, reader: Reader, connectionOriented: bool)

  /** Addresses have their proper sizes, and the reader has accepted its bytes. */
  predicate IncomingOk(q: Incoming)
  {
    && AddressOk(q.local) && AddressOk(q.remote)
    && q.reader.state == BodyValidated && q.reader == OneShot(q.reader.allowLegacy, q.reader.stream)
  }

  lemma IncomingUsable(q: Incoming)
    requires IncomingOk(q)
    ensures Usable(q.reader.stream, q.reader.attributes)
    ensures |q.reader.header.tid| == 16 && q.reader.header.method_ < 0x1000 && q.reader.header.cls < 4
  {
    hide OneShot;
    AcceptedUsable(q.reader.allowLegacy, q.reader.stream);
    AcceptedIffParsed(q.reader.allowLegacy, q.reader.stream);
  }

  function Value(q: Incoming, kind: nat): Option<seq<Byte>>
    requires IncomingOk(q)
  {
    IncomingUsable(q);
    Find(q.reader.stream, q.reader.attributes, kind)
  }

  /** Zero when the attribute is absent or not two bytes long. */
  function ResponsePort(q: Incoming): (p: nat)
    requires IncomingOk(q)
    ensures p < 0x1_0000
  {
    var v := Value(q, RESPONSE_PORT);
    if v.Some? && |v.value| == 2 then GetU16(v.value, 0) else 0
  }

  /** Change IP, change port; neither when the attribute is absent or not four bytes long. */
  function ChangeRequest(q: Incoming): (bool, bool)
    requires IncomingOk(q)
  {
    var v := Value(q, CHANGE_REQUEST);
    if v.Some? && |v.value| == 4 then (v.value[3] / 4 % 2 == 1, v.value[3] / 2 % 2 == 1) else (false, false)
  }

  /** The bytes up to the first zero. */
  function CString(v: seq<Byte>): (s: seq<Byte>)
    ensures |s| <= |v| && 0 !in s
  {
    if v == [] || v[0] == 0 then [] else [v[0]] + CString(v[1..])
  }

  /** A string attribute, or the empty string when it is absent or longer than 64 bytes. */
  function TextOf(q: Incoming, kind: nat): Text
    requires IncomingOk(q)
  {
    var v := Value(q, kind);
    if v.Some? && |v.value| <= 64 then CString(v.value) else []
  }

  // ---- Decisions ----

  /** The answer before it is written down; `key` is empty when no integrity attribute is added. */
  datatype Answer =
    | Refusal(code: nat, realm: Text, nonce: Text)
    | Success(role: Role, origin: Option<Address>, other: Option<Address>, key: seq<Byte>)

  function LongTermKey(s: Server, user: Text, realm: Text, password: Text): seq<Byte>
  {
    s.md5(user + [58] + realm + [58] + password)
  }

  /** Whether the request may proceed, and with which key its answer is to be sealed. */
  datatype Clearance = Cleared(key: seq<Byte>) | Denied(code: nat, realm: Text, nonce: Text)

  function ValidateAuth(s: Server, q: Incoming): Clearance
    requires IncomingOk(q)
  {
    if s.auth.None? then Cleared([])
    else
      var present := LastIndex(q.reader.attributes, INTEGRITY) != -1;
      var user, realm := TextOf(q, USERNAME), TextOf(q, REALM);
      var reply := s.auth.value(Credentials(user, realm, TextOf(q, NONCE), TextOf(q, LEGACY_PASSWORD), present));
      match reply.verdict
      case Failed => Denied(BAD_REQUEST, [], [])
      case Allow => Cleared([])
      case Reject => Denied(BAD_REQUEST, [], [])
      case StaleNonce => Denied(STALE_NONCE, reply.realm, reply.nonce)
      case Unauthorized => Denied(UNAUTHORIZED, reply.realm, reply.nonce)
      case AllowConditional =>
        var key := if reply.longTerm then LongTermKey(s, user, realm, reply.password) else reply.password;
        IncomingUsable(q);
        if IntegrityValid(s.hmac, key, q.reader.stream, q.reader.attributes) then Cleared(key)
        else Denied(UNAUTHORIZED, reply.realm, reply.nonce)
  }

  function OutputRole(q: Incoming): Role
    requires IncomingOk(q)
  {
    var (ip, port) := ChangeRequest(q);
    var r := if ip then SwapIP(q.role) else q.role;
    if port then SwapPort(r) else r
  }

  /** The diagonally opposite address, when all four sockets exist and it is known. */
  function OtherAddress(s: Server, q: Incoming): Option<Address>
  {
    var a := s.sockets.At(Opposite(q.role)).addr;
    if s.sockets.Complete() && !IsIPZero(a) then Some(a) else None
  }

  /** The address answered from: configured, or for the receiving role the one the request arrived on. */
  function OriginAddress(s: Server, q: Incoming, role: Role): Option<Address>
  {
    var configured := s.sockets.At(role).addr;
    var a := if IsIPZero(configured) && role == q.role then q.local else configured;
    if IsIPZero(a) then None else Some(a)
  }

  function ProcessBindingRequest(s: Server, q: Incoming, key: seq<Byte>): Answer
    requires IncomingOk(q)
  {
    var (ip, port) := ChangeRequest(q);
    var role := OutputRole(q);
    if ResponsePort(q) != 0 && Value(q, PADDING).Some? then Refusal(BAD_REQUEST, [], [])
    else if (ip || port) && (!s.sockets.At(role).valid || q.connectionOriented) then Refusal(BAD_REQUEST, [], [])
    else Success(role, OriginAddress(s, q, role), OtherAddress(s, q), key)
  }

  /** Requests of any class but request are dropped without an answer. */
  function Decide(s: Server, q: Incoming): Option<Answer>
    requires IncomingOk(q)
  {
    if q.reader.header.cls != REQUEST_CLASS then None
    else if ResponsePort(q) != 0 && q.connectionOriented then Some(Refusal(BAD_REQUEST, [], []))
    else if q.reader.header.method_ != BINDING then Some(Refusal(BAD_REQUEST, [], []))
    else
      match ValidateAuth(s, q)
      case Denied(code, realm, nonce) => Some(Refusal(code, realm, nonce))
      case Cleared(key) => Some(ProcessBindingRequest(s, q, key))
  }

  // ---- The answer's role and destination ----

  function AnswerRole(q: Incoming, a: Answer): Role
  {
    if a.Success? then a.role else q.role
  }

  function Destination(q: Incoming): Address
    requires IncomingOk(q)
  {
    if ResponsePort(q) != 0 && !q.connectionOriented then SetPort(q.remote, ResponsePort(q)) else q.remote
  }

  /** An answer leaves from a socket the server has, if the request came in on one. */
  lemma AnswersFromOwnSocket(s: Server, q: Incoming)
    requires IncomingOk(q) && s.sockets.At(q.role).valid && Decide(s, q).Some?
    ensures s.sockets.At(AnswerRole(q, Decide(s, q).value)).valid
  {
  }

  lemma OtherComesThrough(s: Server, q: Incoming)
    requires IncomingOk(q) && Decide(s, q).Some? && Decide(s, q).value.Success?
    ensures Decide(s, q).value.other == OtherAddress(s, q)
  {
    hide Value, ValidateAuth, ResponsePort, ChangeRequest, OtherAddress;
  }

  /** Any other address announced is the diagonally opposite one, whatever change was asked for. */
  lemma OtherIsOpposite(s: Server, q: Incoming)
    requires IncomingOk(q) && Decide(s, q).Some? && Decide(s, q).value.Success?
    ensures Decide(s, q).value.other.Some? ==> Decide(s, q).value.other.value == s.sockets.At(Opposite(q.role)).addr
    ensures Decide(s, q).value.other.Some? <==> s.sockets.Complete() && !IsIPZero(s.sockets.At(Opposite(q.role)).addr)
    ensures Opposite(q.role) != q.role && Opposite(Opposite(q.role)) == q.role
  {
    hide Decide, IncomingOk, IsIPZero;
    OtherComesThrough(s, q);
  }
}

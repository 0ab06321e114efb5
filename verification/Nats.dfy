/** Behind a NAT: the discovery client against a server with four sockets, every datagram the NAT admits
    arriving. What the client concludes is compared with what the NAT does. */
module Nats {
  import opened Bits
  import opened Options
  import opened Wire
  import opened Addresses
  import opened Handler
  import Replies
  import opened Discovery
  import opened DiscoveryRuns
  import EndToEnd

  /** Which senders may answer: anyone, hosts that were sent something, or endpoints that were. */
  datatype Filter = AnySource | SameHost | SameEndpoint

  /** A NAT gives the client's endpoint a public address for each destination. */
  datatype World = World(server: Server, local: Address, mapping: Address -> Address, filter: Filter)

  function PPAt(w: World): Address { w.server.sockets.pp.addr }

  function PAAt(w: World): Address { w.server.sockets.pa.addr }

  function APAt(w: World): Address { w.server.sockets.ap.addr }

  function AAAt(w: World): Address { w.server.sockets.aa.addr }

  // ---- The mappings of section 4.1 of RFC 4787, towards the server ----

  ghost function Destinations(w: World): set<Address> { {PPAt(w), PAAt(w), APAt(w), AAAt(w)} }

  ghost predicate Independent(w: World)
  {
    forall d, e :: d in Destinations(w) && e in Destinations(w) ==> w.mapping(d) == w.mapping(e)
  }

  ghost predicate PerHost(w: World)
  {
    forall d, e :: d in Destinations(w) && e in Destinations(w) ==> (w.mapping(d) == w.mapping(e) <==> d.ip == e.ip)
  }

  ghost predicate PerEndpoint(w: World)
  {
    forall d, e :: d in Destinations(w) && e in Destinations(w) ==> (w.mapping(d) == w.mapping(e) <==> d == e)
  }

  /** Two addresses and two ports, known to the server, and no credentials asked for. */
  ghost predicate ServerOk(w: World)
  {
    && w.server.sockets.Ok() && w.server.sockets.Complete() && w.server.auth.None?
    && PAAt(w) == SetPort(PPAt(w), Port(AAAt(w))) && APAt(w) == SetPort(AAAt(w), Port(PPAt(w)))
    && PPAt(w).ip != AAAt(w).ip && Port(PPAt(w)) != Port(AAAt(w)) && !IsIPZero(AAAt(w))
  }

  ghost predicate WorldOk(w: World)
  {
    && ServerOk(w) && AddressOk(w.local)
    && (forall d :: AddressOk(w.mapping(d)) && !IsIPZero(w.mapping(d)))
  }

  predicate IsDirect(w: World) { w.mapping(PPAt(w)) == w.local }

  predicate SameTowardsAP(w: World) { w.mapping(APAt(w)) == w.mapping(PPAt(w)) }

  predicate SameTowardsAA(w: World) { w.mapping(AAAt(w)) == w.mapping(PPAt(w)) }

  /** What the client should say about any mapping, by how the NAT translates towards the primary socket, the
      alternate host and the alternate host's other port. */
  function TrueBehavior(w: World): Behavior
  {
    if IsDirect(w) then DirectMapping
    else if SameTowardsAP(w) then EndpointIndependentMapping
    else if w.mapping(AAAt(w)) == w.mapping(APAt(w)) then AddressDependentMapping
    else AddressAndPortDependentMapping
  }

  function TrueFiltering(w: World): Filtering
  {
    match w.filter
    case AnySource => EndpointIndependentFiltering
    case SameHost => AddressDependentFiltering
    case SameEndpoint => AddressAndPortDependentFiltering
  }

  /** The mapping test has written, through the mapping that the filtering test uses, to where that test is
      answered from. It goes on to the opposite socket only when the first answer left the question open. */
  predicate Opens(w: World)
  {
    match w.filter
    case AnySource => false
    case SameHost => SameTowardsAP(w) || SameTowardsAA(w)
    case SameEndpoint => !SameTowardsAP(w) && SameTowardsAA(w)
  }

  /** What it says about the filtering: a direct client takes it for open, and so does one whose mapping test
      opened the filter. */
  function Conclusion(w: World, behaviorTest: bool): Filtering
  {
    if IsDirect(w) || (behaviorTest && Opens(w)) then EndpointIndependentFiltering else TrueFiltering(w)
  }

  lemma ConclusionIsTrueIff(w: World, behaviorTest: bool)
    ensures Conclusion(w, behaviorTest) == TrueFiltering(w) <==>
              w.filter == AnySource || (!IsDirect(w) && !(behaviorTest && Opens(w)))
  {
  }

  // ---- The four addresses ----

  lemma FourAddresses(w: World)
    requires ServerOk(w)
    ensures AddressOk(PPAt(w)) && AddressOk(PAAt(w)) && AddressOk(APAt(w)) && AddressOk(AAAt(w))
    ensures PAAt(w).ip == PPAt(w).ip && APAt(w).ip == AAAt(w).ip && PPAt(w).ip != AAAt(w).ip
    ensures PAAt(w) != PPAt(w) && APAt(w) != AAAt(w)
  {
    hide Port, SetPort;
    assert Port(PAAt(w)) == Port(AAAt(w)) && Port(APAt(w)) == Port(PPAt(w));
  }

  lemma FourOf(w: World)
    requires WorldOk(w)
    ensures PAAt(w).ip == PPAt(w).ip && APAt(w).ip == AAAt(w).ip && PPAt(w).ip != AAAt(w).ip
    ensures PAAt(w) != PPAt(w) && APAt(w) != AAAt(w)
  {
    FourAddresses(w);
  }

  /** For the mappings that RFC 4787 names, the verdict is that name, and the mapping test opens the filter
      exactly when the mapping is endpoint-independent and the filter goes by host. */
  lemma ClassesAreNamed(w: World)
    requires WorldOk(w) && !IsDirect(w)
    ensures Independent(w) ==> TrueBehavior(w) == EndpointIndependentMapping && (Opens(w) <==> w.filter == SameHost)
    ensures PerHost(w) ==> TrueBehavior(w) == AddressDependentMapping && !Opens(w)
    ensures PerEndpoint(w) ==> TrueBehavior(w) == AddressAndPortDependentMapping && !Opens(w)
  {
    hide WorldOk, PPAt, APAt, AAAt, Independent, PerHost, PerEndpoint;
    FourOf(w);
    InDestinations(w);
    Pairs(w, APAt(w), PPAt(w));
    Pairs(w, AAAt(w), PPAt(w));
    Pairs(w, AAAt(w), APAt(w));
  }

  lemma InDestinations(w: World)
    ensures PPAt(w) in Destinations(w) && APAt(w) in Destinations(w) && AAAt(w) in Destinations(w)
  {
  }

  /** What each kind of mapping says about two destinations. */
  lemma Pairs(w: World, d: Address, e: Address)
    requires d in Destinations(w) && e in Destinations(w)
    ensures Independent(w) ==> w.mapping(d) == w.mapping(e)
    ensures PerHost(w) ==> (w.mapping(d) == w.mapping(e) <==> d.ip == e.ip)
    ensures PerEndpoint(w) ==> (w.mapping(d) == w.mapping(e) <==> d == e)
  {
    hide Destinations;
  }

  // ---- Exchanges ----

  /** `sent` are the destinations written to so far; a filter remembers them for each public address. */
  ghost predicate Admits(w: World, sent: set<Address>, from: Address, to: Address)
  {
    match w.filter
    case AnySource => true
    case SameHost => exists d :: d in sent && w.mapping(d) == to && d.ip == from.ip
    case SameEndpoint => from in sent && w.mapping(from) == to
  }

  /** The server's socket a test writes to. */
  function RoleOf(t: Test): Role
  {
    match t case Behavior2 => AP case Behavior3 => AA case _ => PP
  }

  /** The client's request, as it comes out of the NAT. */
  function RequestAt(w: World, t: Test, tid: seq<Byte>): Incoming
    requires |tid| == 16
  {
    var dest := w.server.sockets.At(RoleOf(t)).addr;
    EndToEnd.Arrives(t, tid, RoleOf(t), dest, w.mapping(dest))
  }

  lemma RequestAnswered(w: World, c: Client, t: Test)
    requires WorldOk(w) && |TidOf(c, t)| == 16
    ensures var q := RequestAt(w, t, TidOf(c, t));
            var to := w.mapping(w.server.sockets.At(RoleOf(t)).addr);
            && IncomingOk(q) && Decide(w.server, q).Some?
            && AnswerRole(q, Decide(w.server, q).value) == EndToEnd.ProbedRole(t, RoleOf(t)) && Destination(q) == to
            && Replies.AnswerOk(Decide(w.server, q).value)
            && Printable(q.reader.header.legacy, Replies.AnswerMessage(q, Decide(w.server, q).value))
            && ReadResponse(c, t, Replies.AnswerBytes(w.server, q, Decide(w.server, q).value))
               == Ours(Some(to), OtherAddress(w.server, q))
            && q.role == RoleOf(t)
  {
    hide IncomingOk, Decide, Replies.AnswerMessage, Replies.AnswerOk, Printable, ReadResponse, Replies.AnswerBytes;
    hide TidOf;
    hide Destination, OtherAddress, EndToEnd.Arrives;
    SocketsOk(w.server.sockets, RoleOf(t));
    var dest := w.server.sockets.At(RoleOf(t)).addr;
    EndToEnd.TestIsAnswered(w.server, c, t, RoleOf(t), dest, w.mapping(dest));
    EndToEnd.ArrivesFrom(t, TidOf(c, t), RoleOf(t), dest, w.mapping(dest));
  }

  lemma SocketsOk(s: Sockets, r: Role)
    requires s.Ok()
    ensures AddressOk(s.At(r).addr)
  {
  }

  /** The server's answer to the request of test `t`. */
  ghost function Reply(w: World, c: Client, t: Test): seq<Byte>
    requires WorldOk(w) && |TidOf(c, t)| == 16
  {
    RequestAnswered(w, c, t);
    var q := RequestAt(w, t, TidOf(c, t));
    Replies.AnswerBytes(w.server, q, Decide(w.server, q).value)
  }

  datatype Play = Play(client: Client, sent: set<Address>)

  /** The client asks; what it sends is answered from the socket the test probes; the answer arrives if the
      NAT admits it. */
  ghost function Exchange(w: World, s: Play, now: Time, draw: Tid): Play
    requires WorldOk(w)
  {
    var (d, o) := GetNextMessage(s.client, now, draw);
    if !o.Send? || d.index >= |TestsOf(d.config)| || |TidOf(d, Current(d))| != 16 || !AddressesOk(d) then
      s.(client := d)
    else
      var t, sent := Current(d), s.sent + {o.dest};
      var from := w.server.sockets.At(EndToEnd.ProbedRole(t, RoleOf(t))).addr;
      if Admits(w, sent, from, w.mapping(o.dest)) then Play(ProcessResponse(d, Reply(w, d, t), w.local), sent)
      else Play(d, sent)
  }

  /** What hearing the answer does to the client. */
  ghost function Took(w: World, c: Client, t: Test): Client
    requires WorldOk(w) && AddressesOk(c)
  {
    if t == Filtering2 || t == Filtering3 then TakeFiltering(c, t)
    else if t == Binding then
      FourAddresses(w);
      TakeBinding(c, w.mapping(PPAt(w)), Some(AAAt(w)), w.local)
    else TakeBehavior(c, t, w.mapping(w.server.sockets.At(RoleOf(t)).addr))
  }

  lemma HearIsTook(w: World, c: Client)
    requires WorldOk(w) && AddressesOk(c) && c.index < |TestsOf(c.config)| && Current(c) !in c.completed
    requires |TidOf(c, Current(c))| == 16
    ensures ProcessResponse(c, Reply(w, c, Current(c)), w.local) == Took(w, c, Current(c))
  {
    hide IncomingOk, Decide, Replies.AnswerMessage, Replies.AnswerOk, Printable, ReadResponse, Replies.AnswerBytes;
    hide TidOf;
    hide TestsOf, RequestAt, Destination, TakeBinding, TakeBehavior, TakeFiltering, OtherAddress;
    RequestAnswered(w, c, Current(c));
    BindingTellsAA(w, RequestAt(w, Current(c), TidOf(c, Current(c))));
  }

  lemma BindingTellsAA(w: World, q: Incoming)
    requires WorldOk(w)
    ensures q.role == PP ==> OtherAddress(w.server, q) == Some(AAAt(w))
  {
  }

  // ---- There are NATs of every kind ----

  const HOST1: Address := Address(false, [13, 150], [10, 0, 0, 1])
  const HOST2: Address := Address(false, [13, 151], [10, 0, 0, 2])

  function FourSockets(): Sockets
  {
    Sockets(Transport(true, HOST1), Transport(true, HOST1.(port := HOST2.port)),
            Transport(true, HOST2.(port := HOST1.port)), Transport(true, HOST2))
  }

  /** A public port for each host and port that makes a difference. */
  function Public(byHost: bool, byPort: bool, d: Address): Address
  {
    var h, p := if byHost && d.ip != HOST1.ip then 1 else 0, if byPort && d.port != HOST1.port then 1 else 0;
    Address(false, [h, p], [9, 9, 9, 9])
  }

  /** A world of the given kind behind the four-socket server. */
  lemma KindsExist(server: Server, local: Address, filter: Filter, byHost: bool, byPort: bool) returns (w: World)
    requires server.sockets == FourSockets() && server.auth.None? && AddressOk(local) && (byPort ==> byHost)
    ensures WorldOk(w) && w.filter == filter && w.server == server && w.local == local
    ensures forall d :: w.mapping(d) == Public(byHost, byPort, d)
    ensures !byHost ==> Independent(w)
    ensures byHost && !byPort ==> PerHost(w) && !Independent(w)
    ensures byPort ==> PerEndpoint(w) && !PerHost(w) && !Independent(w)
  {
    w := World(server, local, (d: Address) => Public(byHost, byPort, d), filter);
    ServerFits(w);
    hide ServerOk;
    forall d ensures AddressOk(w.mapping(d)) && !IsIPZero(w.mapping(d)) {
      assert w.mapping(d).ip[0] == 9;
    }
    Kinds(w, byHost, byPort);
  }

  /** Two hosts, two ports. */
  lemma Differences(w: World)
    requires w.server.sockets == FourSockets()
    ensures PPAt(w) == HOST1 && AAAt(w) == HOST2
    ensures PAAt(w) == HOST1.(port := HOST2.port) && APAt(w) == HOST2.(port := HOST1.port)
    ensures HOST1.ip != HOST2.ip && HOST1.port != HOST2.port && HOST1.v6 == HOST2.v6
  {
    assert HOST1.ip[3] != HOST2.ip[3] && HOST1.port[1] != HOST2.port[1];
  }

  lemma SamePublic(byHost: bool, byPort: bool, d: Address, e: Address)
    ensures Public(byHost, byPort, d) == Public(byHost, byPort, e) <==>
              (byHost ==> (d.ip == HOST1.ip <==> e.ip == HOST1.ip))
              && (byPort ==> (d.port == HOST1.port <==> e.port == HOST1.port))
  {
    var x, y := Public(byHost, byPort, d), Public(byHost, byPort, e);
    assert x == y <==> x.port[0] == y.port[0] && x.port[1] == y.port[1];
  }

  lemma PairKinds(w: World, byHost: bool, byPort: bool, d: Address, e: Address)
    requires w.server.sockets == FourSockets() && d in Destinations(w) && e in Destinations(w)
    requires forall d :: w.mapping(d) == Public(byHost, byPort, d)
    ensures w.mapping(d) == w.mapping(e) <==> (byHost ==> d.ip == e.ip) && (byPort ==> d.port == e.port)
    ensures d == e <==> d.ip == e.ip && d.port == e.port
  {
    hide Public, FourSockets;
    Differences(w);
    SamePublic(byHost, byPort, d, e);
  }

  lemma Kinds(w: World, byHost: bool, byPort: bool)
    requires w.server.sockets == FourSockets() && (byPort ==> byHost)
    requires forall d :: w.mapping(d) == Public(byHost, byPort, d)
    ensures !byHost ==> Independent(w)
    ensures byHost && !byPort ==> PerHost(w) && !Independent(w)
    ensures byPort ==> PerEndpoint(w) && !PerHost(w) && !Independent(w)
  {
    hide Public, FourSockets;
    forall d, e | d in Destinations(w) && e in Destinations(w)
      ensures w.mapping(d) == w.mapping(e) <==> (byHost ==> d.ip == e.ip) && (byPort ==> d.port == e.port)
      ensures d == e <==> d.ip == e.ip && d.port == e.port {
      PairKinds(w, byHost, byPort, d, e);
    }
    Differences(w);
    hide PPAt, PAAt, APAt, AAAt;
    assert PPAt(w) in Destinations(w) && AAAt(w) in Destinations(w) && PAAt(w) in Destinations(w);
  }

  lemma ServerFits(w: World)
    requires w.server.sockets == FourSockets() && w.server.auth.None?
    ensures ServerOk(w)
  {
    assert HOST1.ip[3] != HOST2.ip[3];
    assert AAAt(w).ip[0] == 10;
  }
}

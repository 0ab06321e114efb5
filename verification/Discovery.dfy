/** The NAT discovery client: the tests of sections 4.3 and 4.4 of RFC 5780, run one after the other
    with retransmission, as CStunClientLogic and its tests do. */
module Discovery {
  import opened Bits
  import opened Options
  import opened Wire
  import opened Incremental
  import opened Sealing
  import opened Addresses

  datatype Test = Binding | Behavior2 | Behavior3 | Filtering2 | Filtering3

  datatype Behavior = UnknownBehavior | DirectMapping | EndpointIndependentMapping | AddressDependentMapping
                    | AddressAndPortDependentMapping

  datatype Filtering = UnknownFiltering | EndpointIndependentFiltering | AddressDependentFiltering
                     | AddressAndPortDependentFiltering

  datatype Config = Config(server: Address, timeoutSeconds: nat, maxAttempts: nat, behaviorTest: bool,
                           filteringTest: bool)

  datatype Results = Results(
    bindingSuccess: bool, isDirect: bool, hasOther: bool,
    local: Address, mapped: Address, pa: Address, ap: Address, aa: Address,
    behaviorSuccess: bool, behavior: Behavior, mappingAP: Address, mappingAA: Address,
    filteringSuccess: bool, filtering: Filtering, gotTest2: bool, gotTest3: bool)

  const NO_RESULTS: Results := Results(
    false, false, false, ZERO_ADDRESS, ZERO_ADDRESS, ZERO_ADDRESS, ZERO_ADDRESS, ZERO_ADDRESS,
    false, UnknownBehavior, ZERO_ADDRESS, ZERO_ADDRESS, false, UnknownFiltering, false, false)

  /** `tids` holds the transaction id of every test that has sent a request. */
  datatype Client = Client(config: Config, results: Results, index: nat, sendCount: nat, lastSent: nat,
                           preChecked: bool, completed: set<Test>, tids: map<Test, seq<Byte>>)

  const CLOCK: nat := 0x1_0000_0000

  /** Transaction ids and clock values as a caller may supply them. */
  type Tid = t: seq<Byte> | |t| == 16 && t[..4] == COOKIE witness COOKIE + Blank(12)

  type Time = t: nat | t < CLOCK

  // ---- Setting up ----

  function TestsOf(config: Config): seq<Test>
  {
    [Binding] + (if config.behaviorTest then [Behavior2, Behavior3] else [])
    + (if config.filteringTest then [Filtering2, Filtering3] else [])
  }

  /** Defaults: three seconds unless told to be instant, two attempts. */
  function Initialize(server: Address, instant: bool, timeoutSeconds: nat, maxAttempts: nat, behaviorTest: bool,
                      filteringTest: bool): Client
  {
    var timeout := if instant then 0 else if timeoutSeconds == 0 then 3 else timeoutSeconds;
    var config := Config(server, timeout, if maxAttempts == 0 then 2 else maxAttempts, behaviorTest, filteringTest);
    Client(config, NO_RESULTS, 0, 0, 0, false, {}, map[])
  }

  // ---- The tests ----

  predicate Ready(c: Client, t: Test)
  {
    var r := c.results;
    t !in c.completed &&
    match t
    case Binding => true
    case Behavior2 => r.bindingSuccess && r.hasOther && !r.behaviorSuccess
    case Behavior3 => r.bindingSuccess && r.hasOther && !r.behaviorSuccess && !IsIPZero(r.mappingAP)
    case _ => r.bindingSuccess && r.hasOther && !r.filteringSuccess && !r.gotTest2
  }

  /** A direct client needs no further test. */
  function PreRunCheck(c: Client, t: Test): Client
  {
    var r := c.results;
    if !(r.bindingSuccess && r.isDirect) then c
    else
      match t
      case Behavior2 =>
        c.(completed := c.completed + {t}, results := r.(behavior := DirectMapping, behaviorSuccess := true))
      case Filtering2 =>
        c.(completed := c.completed + {t},
           results := r.(filtering := EndpointIndependentFiltering, filteringSuccess := true))
      case _ => c
  }

  function NotifyTimeout(c: Client, t: Test): Client
  {
    var r, d := c.results, c.(completed := c.completed + {t});
    match t
    case Binding => d.(results := r.(bindingSuccess := false))
    case Behavior2 => d.(results := r.(behaviorSuccess := false))
    case Behavior3 => d.(results := r.(behaviorSuccess := false))
    case Filtering2 => d
    case Filtering3 => d.(results := r.(filteringSuccess := true, filtering := AddressAndPortDependentFiltering))
  }

  function DestinationOf(c: Client, t: Test): Address
  {
    match t
    case Behavior2 => c.results.ap
    case Behavior3 => c.results.aa
    case _ => c.config.server
  }

  // ---- Asking for the next message ----

  datatype Outcome = ResultsReady | StillWaiting | Send(dest: Address, tid: seq<Byte>)

  /** Milliseconds between two clock readings, whatever wrapped in between. */
  function Elapsed(now: Time, before: nat): nat
  {
    (now - before) % CLOCK
  }

  /** The request of the current test; its transaction id is drawn once. */
  function SendRequest(c: Client, t: Test, now: Time, draw: Tid): (Client, Outcome)
  {
    var tid := if t in c.tids then c.tids[t] else draw;
    (c.(tids := c.tids[t := tid], sendCount := c.sendCount + 1, lastSent := now), Send(DestinationOf(c, t), tid))
  }

  function Current(c: Client): Test
    requires c.index < |TestsOf(c.config)|
  {
    TestsOf(c.config)[c.index]
  }

  function Checked(c: Client): Client
    requires c.index < |TestsOf(c.config)|
  {
    if c.preChecked then c else PreRunCheck(c, Current(c)).(preChecked := true)
  }

  function Skip(c: Client): Client
  {
    c.(index := c.index + 1, sendCount := 0, preChecked := false)
  }

  /** Tests still to be looked at, the current one counted twice until it is completed. */
  function Remaining(c: Client): nat
  {
    var n := |TestsOf(c.config)|;
    if c.index >= n then 0 else 2 * (n - c.index) - if Current(c) in c.completed then 1 else 0
  }

  lemma Shrinks(c: Client)
    requires c.index < |TestsOf(c.config)|
    ensures Remaining(Skip(Checked(c))) < Remaining(c)
    ensures Current(c) !in Checked(c).completed ==> Remaining(NotifyTimeout(Checked(c), Current(c))) < Remaining(c)
  {
    hide TestsOf;
  }

  /** The loop of GetNextMessage. */
  function GetNextMessage(c: Client, now: Time, draw: Tid): (r: (Client, Outcome))
    ensures r.0.config == c.config
    decreases Remaining(c)
  {
    if c.index >= |TestsOf(c.config)| then (c, ResultsReady)
    else
      var d, t := Checked(c), Current(c);
      Shrinks(c);
      if t in d.completed || !Ready(d, t) then GetNextMessage(Skip(d), now, draw)
      else if Elapsed(now, d.lastSent) / 1000 < d.config.timeoutSeconds && d.sendCount != 0 then (d, StillWaiting)
      else if d.sendCount >= d.config.maxAttempts then GetNextMessage(NotifyTimeout(d, t), now, draw)
      else SendRequest(d, t, now, draw)
  }

  // ---- Taking a response ----

  function TidOf(c: Client, t: Test): seq<Byte>
  {
    if t in c.tids then c.tids[t] else Blank(16)
  }

  /** The mapped and the other address in a response that belongs to test `t`. */
  datatype Response = Foreign | Ours(mapped: Option<Address>, other: Option<Address>)

  function ReadResponse(c: Client, t: Test, b: seq<Byte>): (p: Response)
    ensures p.Ours? && p.mapped.Some? ==> AddressOk(p.mapped.value)
    ensures p.Ours? && p.other.Some? ==> AddressOk(p.other.value)
  {
    var r := OneShot(true, b);
    if r.state != BodyValidated || r.header.tid != TidOf(c, t) then Foreign
    else
      AcceptedUsable(true, b);
      AcceptedIffParsed(true, b);
      Ours(FirstOf(GetXorMapped(b, r.attributes, r.header.tid), GetMapped(b, r.attributes)), GetOther(b, r.attributes))
  }

  function TakeBinding(c: Client, mapped: Address, other: Option<Address>, local: Address): Client
    requires AddressOk(local) && AddressOk(mapped) && AddressOk(c.config.server)
    requires other.Some? ==> AddressOk(other.value)
  {
    var r := c.results.(bindingSuccess := true, isDirect := SameIPAndPort(local, mapped), local := local,
                        mapped := mapped, hasOther := other.Some?);
    var s := if other.None? then r else
      r.(aa := other.value, pa := SetPort(c.config.server, Port(other.value)),
         ap := SetPort(other.value, Port(c.config.server)));
    c.(completed := c.completed + {Binding}, results := s)
  }

  function TakeBehavior(c: Client, t: Test, mapped: Address): Client
    requires AddressOk(mapped) && AddressOk(c.results.mapped) && AddressOk(c.results.mappingAP)
  {
    var r, d := c.results, c.(completed := c.completed + {t});
    if t == Behavior3 then
      d.(results := r.(mappingAA := mapped, behaviorSuccess := true,
                       behavior := if SameIPAndPort(mapped, r.mappingAP) then AddressDependentMapping
                                   else AddressAndPortDependentMapping))
    else if SameIPAndPort(mapped, r.mapped) then
      d.(results := r.(mappingAP := mapped, behaviorSuccess := true, behavior := EndpointIndependentMapping))
    else d.(results := r.(mappingAP := mapped))
  }

  function TakeFiltering(c: Client, t: Test): Client
  {
    var r, d := c.results, c.(completed := c.completed + {t});
    if t == Filtering3 then
      d.(results := r.(gotTest3 := true, filteringSuccess := true, filtering := AddressDependentFiltering))
    else d.(results := r.(gotTest2 := true, filteringSuccess := true, filtering := EndpointIndependentFiltering))
  }

  predicate AddressesOk(c: Client)
  {
    && AddressOk(c.config.server) && AddressOk(c.results.local) && AddressOk(c.results.mapped)
    && AddressOk(c.results.mappingAP) && AddressOk(c.results.mappingAA)
  }

  /** A response that is not for the current test, or carries no mapped address it needs, changes nothing. */
  function ProcessResponse(c: Client, b: seq<Byte>, local: Address): Client
    requires AddressesOk(c) && AddressOk(local)
  {
    if c.index >= |TestsOf(c.config)| || Current(c) in c.completed then c
    else
      var t := Current(c);
      match ReadResponse(c, t, b)
      case Foreign => c
      case Ours(mapped, other) =>
        if t == Filtering2 || t == Filtering3 then TakeFiltering(c, t)
        else if mapped.None? then c
        else if t == Binding then TakeBinding(c, mapped.value, other, local)
        else TakeBehavior(c, t, mapped.value)
  }
}

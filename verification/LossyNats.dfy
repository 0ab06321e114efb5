/** Behind a NAT on a network that loses, delays, repeats and reorders: what the client still gets right. */
module LossyNats {
  import opened Bits
  import opened Options
  import opened Addresses
  import opened Handler
  import opened Discovery
  import DiscoveryRuns
  import opened Nats
  import NatRuns
  import EndToEnd
  import Replies
  import opened Wire

  /** An answer on its way. */
  datatype Datagram = Datagram(from: Address, to: Address, bytes: seq<Byte>)

  /** What is on its way stays there: it may arrive never, late or more than once. */
  datatype Net = Net(client: Client, sent: set<Address>, flying: set<Datagram>)

  /** The client asks, and its request may be lost before the NAT; or an answer arrives. */
  datatype Event = Ask(now: Time, draw: Tid, lost: bool) | Arrives(d: Datagram)

  ghost function AnswerTo(w: World, c: Client, t: Test): Datagram
    requires WorldOk(w) && |TidOf(c, t)| == 16
  {
    Datagram(w.server.sockets.At(EndToEnd.ProbedRole(t, RoleOf(t))).addr,
             w.mapping(w.server.sockets.At(RoleOf(t)).addr), Reply(w, c, t))
  }

  /** The socket the test writes to answers; a request to anywhere else is not answered. */
  ghost predicate Answered(w: World, d: Client, o: Outcome)
  {
    && o.Send? && d.index < |TestsOf(d.config)| && |TidOf(d, Current(d))| == 16
    && o.dest == w.server.sockets.At(RoleOf(Current(d))).addr
  }

  /** Each transaction id is drawn once, and what arrives is what the NAT lets in. */
  ghost predicate Possible(w: World, n: Net, e: Event)
  {
    match e
    case Ask(_, draw, _) => draw !in n.client.tids.Values
    case Arrives(d) => d in n.flying && Admits(w, n.sent, d.from, d.to)
  }

  ghost function After(w: World, n: Net, e: Event): Net
    requires WorldOk(w)
  {
    match e
    case Ask(now, draw, lost) =>
      var (d, o) := GetNextMessage(n.client, now, draw);
      if lost || !o.Send? then n.(client := d)
      else Net(d, n.sent + {o.dest}, if Answered(w, d, o) then n.flying + {AnswerTo(w, d, Current(d))} else n.flying)
    case Arrives(d) =>
      if AddressesOk(n.client) then n.(client := ProcessResponse(n.client, d.bytes, w.local)) else n
  }

  // ---- What the client's state says about the NAT ----

  /** How much a filter of this kind lets in. */
  function Openness(f: Filtering): nat
  {
    match f
    case UnknownFiltering => 0
    case AddressAndPortDependentFiltering => 1
    case AddressDependentFiltering => 2
    case EndpointIndependentFiltering => 3
  }

  ghost predicate Learned(w: World, c: Client)
  {
    var r := c.results;
    && c.config.server == PPAt(w)
    && (r.bindingSuccess ==>
          && r.mapped == w.mapping(PPAt(w)) && (r.isDirect <==> IsDirect(w))
          && r.hasOther && r.aa == AAAt(w) && r.ap == APAt(w))
    && (r.behaviorSuccess ==> r.behavior == TrueBehavior(w))
    && (!r.behaviorSuccess && !IsIPZero(r.mappingAP) ==>
          !IsDirect(w) && !SameTowardsAP(w) && r.mappingAP == w.mapping(APAt(w)))
    && Openness(r.filtering) <= Openness(Conclusion(w, c.config.behaviorTest))
  }

  /** Only who has been written to lets an answer in. */
  ghost predicate Reached(w: World, c: Client, sent: set<Address>)
  {
    && sent <= {PPAt(w), APAt(w), AAAt(w)}
    && (APAt(w) in sent ==> c.config.behaviorTest && !IsDirect(w))
    && (AAAt(w) in sent ==> c.config.behaviorTest && !IsDirect(w) && !SameTowardsAP(w))
  }

  ghost predicate DistinctTids(c: Client)
  {
    && NatRuns.TidsOk(c)
    && forall t, u :: t in c.tids && u in c.tids && t != u ==> c.tids[t] != c.tids[u]
  }

  ghost predicate IsAnswer(w: World, c: Client, g: Datagram)
    requires WorldOk(w)
  {
    exists t :: t in c.tids && |c.tids[t]| == 16 && g == AnswerTo(w, c, t)
  }

  ghost predicate Knows(w: World, n: Net)
    requires WorldOk(w)
  {
    && DiscoveryRuns.Base(n.client) && DiscoveryRuns.Sendable(n.client)
    && (n.flying != {} ==> DiscoveryRuns.Settled(n.client))
    && DistinctTids(n.client) && Learned(w, n.client) && Reached(w, n.client, n.sent)
    && forall g :: g in n.flying ==> IsAnswer(w, n.client, g)
  }

  // ---- Asking ----

  /** The checks, timeouts and skips of the loop keep what was learned. */
  lemma CheckedLearned(w: World, c: Client)
    requires Learned(w, c) && c.index < |TestsOf(c.config)|
    ensures Learned(w, Checked(c))
  {
    hide TestsOf, IsIPZero;
  }

  lemma TimeoutLearned(w: World, c: Client, t: Test)
    requires Learned(w, c) && DiscoveryRuns.Base(c) && c.index < |TestsOf(c.config)| && Current(c) == t && Ready(c, t)
    ensures Learned(w, NotifyTimeout(c, t))
  {
    hide TestsOf, IsIPZero, DiscoveryRuns.Base;
  }

  lemma {:induction false} AskLearned(w: World, c: Client, now: Time, draw: Tid)
    requires DiscoveryRuns.Base(c) && Learned(w, c)
    ensures var (d, o) := GetNextMessage(c, now, draw);
            && Learned(w, d)
            && (!o.Send? ==> d.tids == c.tids)
            && (o.Send? ==>
                  && d.index < |TestsOf(d.config)| && Current(d) !in d.completed
                  && o.dest == DestinationOf(d, Current(d))
                  && d.tids == c.tids[Current(d) := if Current(d) in c.tids then c.tids[Current(d)] else draw])
    decreases Remaining(c)
  {
    hide TestsOf, Learned, PreRunCheck, NotifyTimeout, Ready, Remaining, Elapsed, DiscoveryRuns.Base;
    if c.index < |TestsOf(c.config)| {
      var d, t := Checked(c), Current(c);
      DiscoveryRuns.CheckedBase(c);
      CheckedLearned(w, c);
      DiscoveryRuns.CheckedKeeps(c);
      Shrinks(c);
      if t in d.completed || !Ready(d, t) {
        DiscoveryRuns.SkipBase(d);
        SkipLearned(w, d);
        AskLearned(w, Skip(d), now, draw);
      } else if Elapsed(now, d.lastSent) / 1000 < d.config.timeoutSeconds && d.sendCount != 0 {
      } else if d.sendCount >= d.config.maxAttempts {
        DiscoveryRuns.TimeoutBase(d);
        DiscoveryRuns.TimeoutKeeps(d, t);
        TimeoutLearned(w, d, t);
        AskLearned(w, NotifyTimeout(d, t), now, draw);
      } else {
        SendLearned(w, d, t, now, draw);
      }
    }
  }

  lemma SkipLearned(w: World, c: Client)
    requires Learned(w, c)
    ensures Learned(w, Skip(c))
  {
    hide IsIPZero;
  }

  lemma SendLearned(w: World, c: Client, t: Test, now: Time, draw: Tid)
    requires Learned(w, c)
    ensures Learned(w, SendRequest(c, t, now, draw).0)
    ensures DestinationOf(SendRequest(c, t, now, draw).0, t) == SendRequest(c, t, now, draw).1.dest
  {
    hide IsIPZero;
  }

  /** Where the request of the current test goes, and what it means for the filter. */
  lemma SendReaches(w: World, c: Client, sent: set<Address>, t: Test)
    requires WorldOk(w) && Learned(w, c) && DiscoveryRuns.Settled(c) && Reached(w, c, sent)
    requires c.index < |TestsOf(c.config)| && Current(c) == t && t !in c.completed
    ensures DestinationOf(c, t) == w.server.sockets.At(RoleOf(t)).addr
    ensures Reached(w, c, sent + {DestinationOf(c, t)})
  {
    hide TestsOf, IsIPZero, DiscoveryRuns.Base, WorldOk;
    FourOf(w);
    if t != Binding {
      NatRuns.NotDirect(c, t);
    }
    assert t == Behavior3 ==> !IsIPZero(c.results.mappingAP);
  }

  lemma DrawnOnce(c: Client, d: Client, t: Test, draw: Tid)
    requires DistinctTids(c) && draw !in c.tids.Values
    requires d.tids == c.tids[t := if t in c.tids then c.tids[t] else draw]
    ensures DistinctTids(d)
  {
    assert forall u :: u in c.tids ==> c.tids[u] in c.tids.Values;
  }

  /** An answer is the same for every client that keeps the test's transaction id. */
  lemma StillAnswer(w: World, c: Client, d: Client, g: Datagram)
    requires WorldOk(w) && IsAnswer(w, c, g) && DiscoveryRuns.SameTids(c, d)
    ensures IsAnswer(w, d, g)
  {
    hide WorldOk, RequestAt, IncomingOk, Decide, Replies.AnswerBytes;
    var t :| t in c.tids && |c.tids[t]| == 16 && g == AnswerTo(w, c, t);
    assert TidOf(d, t) == TidOf(c, t);
    assert AnswerTo(w, d, t) == AnswerTo(w, c, t);
  }

  lemma AskKnows(w: World, n: Net, now: Time, draw: Tid, lost: bool)
    requires WorldOk(w) && Knows(w, n) && Possible(w, n, Ask(now, draw, lost))
    ensures Knows(w, After(w, n, Ask(now, draw, lost)))
  {
    hide WorldOk, DiscoveryRuns.Base, DiscoveryRuns.Settled, Learned, Reached, TestsOf, GetNextMessage, AnswerTo;
    hide DistinctTids, IsAnswer;
    var c := n.client;
    var (d, o) := GetNextMessage(c, now, draw);
    AskLearned(w, c, now, draw);
    DiscoveryRuns.NextSettles(c, now, draw);
    SettledIsBase(d);
    forall g | g in n.flying ensures IsAnswer(w, d, g) {
      StillAnswer(w, c, d, g);
    }
    SameReached(w, c, d, n.sent);
    if o.Send? {
      DrawnOnce(c, d, Current(d), draw);
      SendReaches(w, d, n.sent, Current(d));
      NewAnswer(w, d, Current(d));
    } else {
      SameDistinct(c, d);
    }
  }

  lemma SettledIsBase(c: Client)
    requires DiscoveryRuns.Settled(c)
    ensures DiscoveryRuns.Base(c)
  {
  }

  lemma SameDistinct(c: Client, d: Client)
    requires DistinctTids(c) && d.tids == c.tids
    ensures DistinctTids(d)
  {
  }

  lemma SameReached(w: World, c: Client, d: Client, sent: set<Address>)
    requires Reached(w, c, sent) && d.config == c.config
    ensures Reached(w, d, sent)
  {
  }

  lemma NewAnswer(w: World, c: Client, t: Test)
    requires WorldOk(w) && DistinctTids(c) && t in c.tids
    ensures |TidOf(c, t)| == 16 && IsAnswer(w, c, AnswerTo(w, c, t))
  {
    hide WorldOk, AnswerTo;
    assert |c.tids[t]| == 16;
  }

  // ---- Hearing ----

  /** An answer to another test is not for the current one. */
  lemma OtherTestIsForeign(w: World, c: Client, t: Test, u: Test)
    requires WorldOk(w) && DistinctTids(c) && t in c.tids && u in c.tids && t != u
    ensures |TidOf(c, t)| == 16 && ReadResponse(c, u, Reply(w, c, t)) == Foreign
  {
    hide WorldOk, RequestAt, IncomingOk, Decide, Replies.AnswerBytes, Replies.AnswerMessage, Printable;
    assert |c.tids[t]| == 16;
    RequestAnswered(w, c, t);
  }

  /** The answer to a mapping test tells what the NAT does. */
  lemma TookLearned(w: World, c: Client, t: Test)
    requires WorldOk(w) && Learned(w, c) && DiscoveryRuns.Settled(c) && AddressesOk(c)
    requires c.index < |TestsOf(c.config)| && Current(c) == t && t !in c.completed
    requires t == Behavior2 || t == Behavior3
    ensures Learned(w, Took(w, c, t))
  {
    hide TestsOf, IsIPZero, DiscoveryRuns.Base, WorldOk;
    NatRuns.MappedOk(w, PPAt(w));
    NatRuns.MappedOk(w, APAt(w));
    NatRuns.MappedOk(w, AAAt(w));
    NatRuns.NotDirect(c, t);
    SameIsEqual(w.mapping(APAt(w)), w.mapping(PPAt(w)));
    SameIsEqual(w.mapping(AAAt(w)), w.mapping(APAt(w)));
  }

  lemma BindingLearned(w: World, c: Client)
    requires WorldOk(w) && Learned(w, c) && AddressesOk(c) && c.results == NO_RESULTS
    ensures Learned(w, Took(w, c, Binding))
  {
    hide SetPort, Port, AddressOk;
    assert IsIPZero(ZERO_ADDRESS);
    hide IsIPZero;
    FourAddresses(w);
    assert AddressOk(w.mapping(PPAt(w)));
    SameIsEqual(w.local, w.mapping(PPAt(w)));
  }

  /** A filtering test is heard only if the filter is as open as the test then says. */
  lemma HeardIsOpen(w: World, c: Client, sent: set<Address>)
    requires WorldOk(w) && Reached(w, c, sent)
    ensures Admits(w, sent, AAAt(w), w.mapping(PPAt(w))) && !IsDirect(w) ==>
              Conclusion(w, c.config.behaviorTest) == EndpointIndependentFiltering
    ensures Admits(w, sent, PAAt(w), w.mapping(PPAt(w))) ==> Openness(Conclusion(w, c.config.behaviorTest)) >= 2
  {
    hide WorldOk, PPAt, PAAt, APAt, AAAt;
    FourOf(w);
  }

  lemma FilteringLearned(w: World, c: Client, sent: set<Address>, t: Test)
    requires WorldOk(w) && Learned(w, c) && DiscoveryRuns.Settled(c) && Reached(w, c, sent)
    requires c.index < |TestsOf(c.config)| && Current(c) == t && t !in c.completed
    requires t == Filtering2 || t == Filtering3
    requires Admits(w, sent, w.server.sockets.At(EndToEnd.ProbedRole(t, PP)).addr, w.mapping(PPAt(w)))
    ensures Learned(w, TakeFiltering(c, t))
  {
    hide TestsOf, IsIPZero, DiscoveryRuns.Base, WorldOk, Admits, Conclusion;
    NatRuns.NotDirect(c, t);
    HeardIsOpen(w, c, sent);
  }

  /** Nothing is known while the binding test is under way. */
  lemma NothingYet(c: Client)
    requires DiscoveryRuns.Settled(c) && Binding !in c.completed
    ensures c.results == NO_RESULTS
  {
  }

  lemma HeardLearned(w: World, c: Client, sent: set<Address>, t: Test)
    requires WorldOk(w) && Learned(w, c) && DiscoveryRuns.Settled(c) && AddressesOk(c) && Reached(w, c, sent)
    requires c.index < |TestsOf(c.config)| && Current(c) == t && t !in c.completed
    requires Admits(w, sent, w.server.sockets.At(EndToEnd.ProbedRole(t, RoleOf(t))).addr,
                    w.mapping(w.server.sockets.At(RoleOf(t)).addr))
    ensures Learned(w, Took(w, c, t))
  {
    hide TestsOf, DiscoveryRuns.Settled, WorldOk, Admits, Learned, AddressesOk, Reached;
    match t
    case Binding =>
      NothingYet(c);
      BindingLearned(w, c);
    case Behavior2 => TookLearned(w, c, t);
    case Behavior3 => TookLearned(w, c, t);
    case Filtering2 => FilteringLearned(w, c, sent, t);
    case Filtering3 => FilteringLearned(w, c, sent, t);
  }

  /** Whichever answer arrives, the client's state stays true of the NAT. */
  lemma ArrivalLearned(w: World, n: Net, g: Datagram)
    requires WorldOk(w) && Knows(w, n) && Possible(w, n, Arrives(g)) && AddressesOk(n.client)
    ensures Learned(w, ProcessResponse(n.client, g.bytes, w.local))
  {
    hide WorldOk, DiscoveryRuns.Base, Learned, Reached, TestsOf, Reply, Admits, ReadResponse, DistinctTids, AddressesOk;
    hide Took, Ready;
    var c := n.client;
    assert IsAnswer(w, c, g);
    var t :| t in c.tids && |c.tids[t]| == 16 && g == AnswerTo(w, c, t);
    if c.index < |TestsOf(c.config)| && Current(c) !in c.completed {
      if t == Current(c) {
        HearIsTook(w, c);
        HeardLearned(w, c, n.sent, t);
      } else {
        OtherTestIsForeign(w, c, t, Current(c));
      }
    }
  }

  lemma ArrivalKnows(w: World, n: Net, g: Datagram)
    requires WorldOk(w) && Knows(w, n) && Possible(w, n, Arrives(g))
    ensures Knows(w, After(w, n, Arrives(g)))
  {
    hide WorldOk, DiscoveryRuns.Base, DiscoveryRuns.Settled, Learned, Reached, TestsOf, IsAnswer, DistinctTids;
    hide ProcessResponse, AddressesOk, Admits;
    var c := n.client;
    LocalOk(w);
    DiscoveryRuns.ResponseSettles(c, g.bytes, w.local);
    var d := ProcessResponse(c, g.bytes, w.local);
    SettledIsBase(d);
    ArrivalLearned(w, n, g);
    SameDistinct(c, d);
    SameReached(w, c, d, n.sent);
    forall x | x in n.flying ensures IsAnswer(w, d, x) {
      StillAnswer(w, c, d, x);
    }
  }

  lemma LocalOk(w: World)
    requires WorldOk(w)
    ensures AddressOk(w.local)
  {
  }

  lemma EventKnows(w: World, n: Net, e: Event)
    requires WorldOk(w) && Knows(w, n) && Possible(w, n, e)
    ensures Knows(w, After(w, n, e))
  {
    hide WorldOk, Knows, After, Possible;
    match e
    case Ask(now, draw, lost) => AskKnows(w, n, now, draw, lost);
    case Arrives(d) => ArrivalKnows(w, n, d);
  }

  // ---- Runs ----

  ghost predicate IsRun(w: World, n: Net, events: seq<Event>)
    requires WorldOk(w)
    decreases |events|
  {
    events == [] || (Possible(w, n, events[0]) && IsRun(w, After(w, n, events[0]), events[1..]))
  }

  ghost function Run(w: World, n: Net, events: seq<Event>): Net
    requires WorldOk(w)
    decreases |events|
  {
    if events == [] then n else Run(w, After(w, n, events[0]), events[1..])
  }

  lemma {:induction false} RunKnows(w: World, n: Net, events: seq<Event>)
    requires WorldOk(w) && Knows(w, n) && IsRun(w, n, events)
    ensures Knows(w, Run(w, n, events))
    decreases |events|
  {
    hide WorldOk, Knows, After, Possible;
    if events != [] {
      EventKnows(w, n, events[0]);
      RunKnows(w, After(w, n, events[0]), events[1..]);
    }
  }

  lemma StartKnows(w: World, c: Client)
    requires WorldOk(w) && DiscoveryRuns.Started(c) && c.config.server == PPAt(w)
    ensures Knows(w, Net(c, {}, {}))
  {
    DiscoveryRuns.StartBase(c);
    assert IsIPZero(ZERO_ADDRESS);
    hide WorldOk, DiscoveryRuns.Base, TestsOf, IsIPZero;
  }

  /** Whatever is lost, late, repeated or out of order, in every run with distinct transaction ids: the public
      address learned is the NAT's, a mapping verdict that is given is the true one, and no filter is said to
      be more open than an undisturbed run would say. */
  lemma LossesDoNotMislead(w: World, c: Client, events: seq<Event>)
    requires WorldOk(w) && DiscoveryRuns.Started(c) && c.config.server == PPAt(w)
    requires IsRun(w, Net(c, {}, {}), events)
    ensures var r := Run(w, Net(c, {}, {}), events).client.results;
            && (r.bindingSuccess ==> r.mapped == w.mapping(PPAt(w)) && (r.isDirect <==> IsDirect(w)))
            && (r.behaviorSuccess ==> r.behavior == TrueBehavior(w))
            && Openness(r.filtering) <= Openness(Conclusion(w, c.config.behaviorTest))
  {
    hide WorldOk, IsRun, Run, Knows, TrueBehavior, Conclusion, DiscoveryRuns.Started;
    StartKnows(w, c);
    RunKnows(w, Net(c, {}, {}), events);
    RunConfig(w, Net(c, {}, {}), events);
    KnowsLearned(w, Run(w, Net(c, {}, {}), events));
  }

  lemma KnowsLearned(w: World, n: Net)
    requires WorldOk(w) && Knows(w, n)
    ensures Learned(w, n.client)
  {
  }

  lemma {:induction false} RunConfig(w: World, n: Net, events: seq<Event>)
    requires WorldOk(w)
    ensures Run(w, n, events).client.config == n.client.config
    decreases |events|
  {
    hide WorldOk, GetNextMessage, Answered, AnswerTo, TestsOf, ReadResponse;
    if events != [] {
      assert After(w, n, events[0]).client.config == n.client.config;
      RunConfig(w, After(w, n, events[0]), events[1..]);
    }
  }

  /** An undisturbed exchange is a run of at most two events: the request, and its answer at once. */
  lemma ExchangeIsRun(w: World, n: Net, now: Time, draw: Tid) returns (events: seq<Event>)
    requires WorldOk(w) && Knows(w, n) && Possible(w, n, Ask(now, draw, false))
    ensures IsRun(w, n, events)
    ensures Play(Run(w, n, events).client, Run(w, n, events).sent) == Exchange(w, Play(n.client, n.sent), now, draw)
  {
    hide WorldOk, Knows, GetNextMessage, ProcessResponse, Admits, Reply, AddressesOk, TestsOf, TidOf, IsRun, Run;
    var ask := Ask(now, draw, false);
    var m := After(w, n, ask);
    NoEvent(w, m);
    FirstEvent(w, n, ask, []);
    events := [ask] + [];
    var (d, o) := GetNextMessage(n.client, now, draw);
    if o.Send? {
      AskAnswered(w, n, now, draw);
      var g := AnswerTo(w, d, Current(d));
      if Admits(w, m.sent, g.from, g.to) {
        NoEvent(w, After(w, m, Arrives(g)));
        FirstEvent(w, m, Arrives(g), []);
        FirstEvent(w, n, ask, [Arrives(g)] + []);
        events := [ask] + ([Arrives(g)] + []);
      }
    }
  }

  lemma AskAnswered(w: World, n: Net, now: Time, draw: Tid)
    requires WorldOk(w) && Knows(w, n) && Possible(w, n, Ask(now, draw, false))
    requires GetNextMessage(n.client, now, draw).1.Send?
    ensures var (d, o) := GetNextMessage(n.client, now, draw); Answered(w, d, o) && AddressesOk(d)
  {
    hide WorldOk, DiscoveryRuns.Base, DiscoveryRuns.Settled, Learned, Reached, TestsOf, GetNextMessage, AnswerTo;
    hide DistinctTids, AddressesOk, IsAnswer;
    var c := n.client;
    var (d, o) := GetNextMessage(c, now, draw);
    AskLearned(w, c, now, draw);
    DiscoveryRuns.NextSettles(c, now, draw);
    DiscoveryRuns.SettledAddresses(d);
    SameReached(w, c, d, n.sent);
    DrawnOnce(c, d, Current(d), draw);
    SendReaches(w, d, n.sent, Current(d));
    NewAnswer(w, d, Current(d));
  }

  lemma NoEvent(w: World, n: Net)
    requires WorldOk(w)
    ensures IsRun(w, n, []) && Run(w, n, []) == n
  {
  }

  lemma FirstEvent(w: World, n: Net, e: Event, rest: seq<Event>)
    requires WorldOk(w) && Possible(w, n, e) && IsRun(w, After(w, n, e), rest)
    ensures IsRun(w, n, [e] + rest) && Run(w, n, [e] + rest) == Run(w, After(w, n, e), rest)
  {
    hide WorldOk, Possible, After;
    assert ([e] + rest)[1..] == rest;
  }
}

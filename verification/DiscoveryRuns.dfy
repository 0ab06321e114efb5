/** What holds in every run of the discovery client. */
module DiscoveryRuns {
  import opened Bits
  import Options
  import opened Addresses
  import opened Discovery

  // ---- Verdicts and their evidence ----

  /** Each verdict rests on what was observed; without a binding nothing is claimed. */
  ghost predicate Evidence(r: Results)
  {
    && AddressOk(r.local) && AddressOk(r.mapped) && AddressOk(r.mappingAP) && AddressOk(r.mappingAA)
    && (r.behaviorSuccess <==> r.behavior != UnknownBehavior)
    && (r.filteringSuccess <==> r.filtering != UnknownFiltering)
    && (!r.bindingSuccess ==> r == NO_RESULTS)
    && (r.bindingSuccess ==> r.isDirect == SameIPAndPort(r.local, r.mapped))
    && BehaviorEvidence(r) && FilteringEvidence(r)
  }

  ghost predicate BehaviorEvidence(r: Results)
    requires AddressOk(r.mapped) && AddressOk(r.mappingAP) && AddressOk(r.mappingAA)
  {
    && (!r.behaviorSuccess && !IsIPZero(r.mappingAP) ==> !SameIPAndPort(r.mappingAP, r.mapped))
    && match r.behavior
       case UnknownBehavior => true
       case DirectMapping => r.isDirect
       case EndpointIndependentMapping => !r.isDirect && r.hasOther && SameIPAndPort(r.mappingAP, r.mapped)
       case AddressDependentMapping =>
         !r.isDirect && r.hasOther && !SameIPAndPort(r.mappingAP, r.mapped) && SameIPAndPort(r.mappingAA, r.mappingAP)
       case AddressAndPortDependentMapping =>
         !r.isDirect && r.hasOther && !SameIPAndPort(r.mappingAP, r.mapped) && !SameIPAndPort(r.mappingAA, r.mappingAP)
  }

  ghost predicate FilteringEvidence(r: Results)
  {
    && (r.gotTest2 ==> r.filtering == EndpointIndependentFiltering)
    && (r.gotTest3 ==> r.filtering == AddressDependentFiltering)
    && match r.filtering
       case UnknownFiltering => true
       case EndpointIndependentFiltering => r.isDirect || (r.hasOther && r.gotTest2)
       case AddressDependentFiltering => !r.isDirect && r.hasOther && r.gotTest3
       case AddressAndPortDependentFiltering => !r.isDirect && r.hasOther
  }

  // ---- Where a run stands ----

  function Position(config: Config, t: Test): nat
  {
    match t
    case Binding => 0
    case Behavior2 => 1
    case Behavior3 => 2
    case Filtering2 => if config.behaviorTest then 3 else 1
    case Filtering3 => if config.behaviorTest then 4 else 2
  }

  predicate Requested(config: Config, t: Test)
  {
    match t
    case Binding => true
    case Behavior2 => config.behaviorTest
    case Behavior3 => config.behaviorTest
    case _ => config.filteringTest
  }

  predicate Passed(c: Client, t: Test)
  {
    Requested(c.config, t) && Position(c.config, t) < c.index
  }

  lemma TestsInOrder(config: Config)
    ensures var n := |TestsOf(config)|;
            && n == 1 + (if config.behaviorTest then 2 else 0) + (if config.filteringTest then 2 else 0)
            && (forall t :: Requested(config, t) ==> Position(config, t) < n)
            && (forall t :: Requested(config, t) ==> TestsOf(config)[Position(config, t)] == t)
            && (forall i :: 0 <= i < n ==> Requested(config, TestsOf(config)[i]))
            && (forall i :: 0 <= i < n ==> Position(config, TestsOf(config)[i]) == i)
  {
  }

  /** Only tests up to the current one have completed. */
  ghost predicate Ordered(c: Client)
  {
    && c.index <= |TestsOf(c.config)|
    && forall t :: t in c.completed ==> Requested(c.config, t) && Position(c.config, t) <= c.index
  }

  /** What is not completed has left no trace. */
  ghost predicate Untouched(c: Client)
  {
    var r := c.results;
    && (Binding !in c.completed ==> c.index == 0 && r == NO_RESULTS)
    && (Behavior2 !in c.completed ==> !r.behaviorSuccess && r.mappingAP == ZERO_ADDRESS)
    && (Filtering2 !in c.completed ==> !r.filteringSuccess)
    && (Filtering3 !in c.completed ==> r.filtering != AddressAndPortDependentFiltering && !r.gotTest3)
  }

  /** Tests the run has gone past were decided when they could be. */
  ghost predicate Decided(c: Client)
  {
    var r := c.results;
    && (r.bindingSuccess && r.isDirect && (Passed(c, Behavior2) || At(c, Behavior2)) ==> r.behavior == DirectMapping)
    && (r.bindingSuccess && r.isDirect && (Passed(c, Filtering2) || At(c, Filtering2)) ==> r.filteringSuccess)
    && (r.bindingSuccess && r.hasOther && Passed(c, Filtering3) ==> r.filteringSuccess)
    && (Filtering3 in c.completed ==> r.filteringSuccess)
    && (Passed(c, Filtering2) && Filtering2 !in c.completed ==> !r.bindingSuccess || !r.hasOther)
    && (Passed(c, Behavior2) && Behavior2 !in c.completed ==> !r.bindingSuccess || !r.hasOther)
  }

  /** The test is the current one and has had its early check. */
  ghost predicate At(c: Client, t: Test)
  {
    Requested(c.config, t) && Position(c.config, t) == c.index && c.preChecked
  }

  ghost predicate Base(c: Client)
  {
    && AddressOk(c.config.server) && c.config.maxAttempts >= 1 && c.sendCount <= c.config.maxAttempts
    && Evidence(c.results) && Ordered(c) && Untouched(c) && Decided(c)
    && (c.index < |TestsOf(c.config)| && Current(c) in c.completed ==> c.preChecked)
  }

  lemma CheckedBase(c: Client)
    requires Base(c) && c.index < |TestsOf(c.config)|
    ensures Base(Checked(c)) && Checked(c).preChecked
  {
    assert IsIPZero(ZERO_ADDRESS);
    hide TestsOf, SameIPAndPort, IsIPZero;
    TestsInOrder(c.config);
  }

  /** Going on to the next test: this one is completed, or cannot run. */
  lemma SkipBase(c: Client)
    requires Base(c) && c.index < |TestsOf(c.config)| && c.preChecked
    requires Current(c) in c.completed || !Ready(c, Current(c))
    ensures Base(Skip(c))
  {
  }

  lemma TimeoutBase(c: Client)
    requires Base(c) && c.index < |TestsOf(c.config)| && c.preChecked && Ready(c, Current(c))
    ensures Base(NotifyTimeout(c, Current(c))) && NotifyTimeout(c, Current(c)).preChecked
  {
    assert IsIPZero(ZERO_ADDRESS);
    hide TestsOf, SameIPAndPort, IsIPZero;
    TestsInOrder(c.config);
  }

  lemma SendBase(c: Client, now: Time, draw: Tid)
    requires Base(c) && c.index < |TestsOf(c.config)| && c.preChecked && Ready(c, Current(c))
    requires c.sendCount < c.config.maxAttempts
    ensures Base(SendRequest(c, Current(c), now, draw).0)
  {
  }

  /** Between calls: all done, or the current test completed, or it has a request under way. */
  ghost predicate Settled(c: Client)
  {
    && Base(c)
    && (c.index < |TestsOf(c.config)| && Current(c) !in c.completed ==>
          c.preChecked && Ready(c, Current(c)) && c.sendCount >= 1 && Current(c) in c.tids)
  }

  /** Every test that has sent has its transaction id; none is drawn twice. */
  predicate SameTids(c: Client, d: Client)
  {
    forall t :: t in c.tids ==> t in d.tids && d.tids[t] == c.tids[t]
  }

  /** One pass of the loop either ends the call or goes on with a smaller problem. */
  ghost predicate Sendable(c: Client)
  {
    c.sendCount > 0 && c.index < |TestsOf(c.config)| ==> Current(c) in c.tids
  }

  lemma {:induction false} NextSettles(c: Client, now: Time, draw: Tid)
    requires Base(c) && Sendable(c)
    ensures var (d, o) := GetNextMessage(c, now, draw);
            && Settled(d) && Sendable(d) && SameTids(c, d) && d.config == c.config
            && (o == ResultsReady <==> d.index == |TestsOf(d.config)|)
            && (o.Send? ==> d.index < |TestsOf(d.config)| && Current(d) in d.tids && o.tid == d.tids[Current(d)])
    decreases Remaining(c)
  {
    hide TestsOf, Evidence, Untouched, Decided, PreRunCheck, NotifyTimeout, Ready, Elapsed, Base, Remaining;
    BaseIndex(c);
    if c.index < |TestsOf(c.config)| {
      var d, t := Checked(c), Current(c);
      CheckedBase(c);
      CheckedKeeps(c);
      Shrinks(c);
      if t in d.completed || !Ready(d, t) {
        SkipBase(d);
        NextSettles(Skip(d), now, draw);
      } else if Elapsed(now, d.lastSent) / 1000 < d.config.timeoutSeconds && d.sendCount != 0 {
      } else if d.sendCount >= d.config.maxAttempts {
        TimeoutBase(d);
        TimeoutKeeps(d, t);
        NextSettles(NotifyTimeout(d, t), now, draw);
      } else {
        SendBase(d, now, draw);
        ReadyCompleted(d, t);
        SentReady(d, t, now, draw);
      }
    }
  }

  lemma BaseIndex(c: Client)
    requires Base(c)
    ensures c.index <= |TestsOf(c.config)|
  {
  }

  lemma CheckedKeeps(c: Client)
    requires c.index < |TestsOf(c.config)|
    ensures var d := Checked(c);
            && d.config == c.config && d.index == c.index && d.sendCount == c.sendCount
            && d.tids == c.tids && d.lastSent == c.lastSent
  {
  }

  lemma TimeoutKeeps(c: Client, t: Test)
    ensures var d := NotifyTimeout(c, t);
            && d.config == c.config && d.index == c.index && d.sendCount == c.sendCount
            && d.tids == c.tids && d.lastSent == c.lastSent
  {
  }

  lemma ReadyCompleted(c: Client, t: Test)
    ensures Ready(c, t) ==> t !in c.completed
  {
  }

  lemma SentReady(c: Client, t: Test, now: Time, draw: Tid)
    requires Ready(c, t)
    ensures Ready(SendRequest(c, t, now, draw).0, t)
  {
  }

  // ---- Responses ----

  /** The current test is completed and only results change. */
  predicate Finishes(c: Client, d: Client)
    requires c.index < |TestsOf(c.config)|
  {
    d == c.(results := d.results, completed := c.completed + {Current(c)})
  }

  lemma BindingBase(c: Client, mapped: Address, other: Options.Option<Address>, local: Address)
    requires Settled(c) && c.index < |TestsOf(c.config)| && Current(c) == Binding && Binding !in c.completed
    requires AddressOk(local) && AddressOk(mapped) && (other.Some? ==> AddressOk(other.value))
    ensures Base(TakeBinding(c, mapped, other, local)) && Finishes(c, TakeBinding(c, mapped, other, local))
  {
  }

  lemma BehaviorBase(c: Client, t: Test, mapped: Address)
    requires Settled(c) && c.index < |TestsOf(c.config)| && Current(c) == t && t !in c.completed
    requires (t == Behavior2 || t == Behavior3) && AddressOk(mapped) && AddressesOk(c)
    ensures Base(TakeBehavior(c, t, mapped)) && Finishes(c, TakeBehavior(c, t, mapped))
  {
    assert IsIPZero(ZERO_ADDRESS);
    hide TestsOf, SameIPAndPort, IsIPZero;
    TestsInOrder(c.config);
  }

  lemma FilteringBase(c: Client, t: Test)
    requires Settled(c) && c.index < |TestsOf(c.config)| && Current(c) == t && t !in c.completed
    requires t == Filtering2 || t == Filtering3
    ensures Base(TakeFiltering(c, t)) && Finishes(c, TakeFiltering(c, t))
  {
  }

  lemma ResponseSettles(c: Client, b: seq<Byte>, local: Address)
    requires Settled(c) && Sendable(c) && AddressOk(local)
    ensures AddressesOk(c)
    ensures var d := ProcessResponse(c, b, local);
            && Settled(d) && Sendable(d) && d.tids == c.tids && d.config == c.config
            && d.index == c.index && d.sendCount == c.sendCount && d.lastSent == c.lastSent
  {
    SettledAddresses(c);
    hide TestsOf, ReadResponse, Ready, AddressesOk, Base, TakeBinding, TakeBehavior, TakeFiltering;
    if c.index < |TestsOf(c.config)| && Current(c) !in c.completed {
      var t, p := Current(c), ReadResponse(c, Current(c), b);
      if p.Ours? {
        if t == Filtering2 || t == Filtering3 {
          FilteringBase(c, t);
        } else if p.mapped.Some? {
          if t == Binding {
            BindingBase(c, p.mapped.value, p.other, local);
          } else {
            BehaviorBase(c, t, p.mapped.value);
          }
        }
      }
    }
  }

  lemma SettledAddresses(c: Client)
    requires Settled(c)
    ensures AddressesOk(c)
  {
  }

  // ---- Runs and what they send ----

  datatype Call = Ask(now: Time, draw: Tid) | Hear(b: seq<Byte>, local: Address)

  /** A request sent: which test, when, under which transaction id. */
  datatype Sent = Sent(index: nat, at: Time, tid: seq<Byte>)

  datatype History = History(client: Client, log: seq<Sent>)

  /** Addresses are well-formed in every run, so a response is always looked at. */
  ghost function After(h: History, call: Call): History
  {
    match call
    case Ask(now, draw) =>
      var (d, o) := GetNextMessage(h.client, now, draw);
      History(d, if o.Send? then h.log + [Sent(d.index, now, o.tid)] else h.log)
    case Hear(b, local) =>
      if AddressesOk(h.client) && AddressOk(local) then h.(client := ProcessResponse(h.client, b, local)) else h
  }

  /** How often the test at `index` has sent. */
  function Count(log: seq<Sent>, index: nat): nat
  {
    if log == [] then 0 else Count(log[..|log| - 1], index) + if log[|log| - 1].index == index then 1 else 0
  }

  /** On a clock that wraps around, the milliseconds that passed, if they were fewer than it counts. */
  lemma ElapsedIsReal(before: nat, now: nat)
    requires before <= now < before + CLOCK
    ensures Elapsed(now % CLOCK, before % CLOCK) == now - before
  {
  }

  /** The log agrees with the client's counters and ids, and respects the limits. */
  ghost predicate LogOk(h: History)
  {
    var c, log := h.client, h.log;
    && (forall k :: Count(log, k) <= c.config.maxAttempts)
    && (forall k :: k >= c.index ==> Count(log, k) == if k == c.index then c.sendCount else 0)
    && (forall i :: 0 <= i < |log| ==> TidKept(c, log[i]))
    && (forall i :: 0 < i < |log| ==> Spaced(c, log[i - 1], log[i]))
    && (c.sendCount > 0 ==> log != [] && log[|log| - 1].index == c.index && log[|log| - 1].at == c.lastSent)
    && c.lastSent < CLOCK
  }

  /** All requests of one test carry the one transaction id it keeps. */
  ghost predicate TidKept(c: Client, s: Sent)
  {
    s.index < |TestsOf(c.config)| && TestsOf(c.config)[s.index] in c.tids && c.tids[TestsOf(c.config)[s.index]] == s.tid
  }

  /** Successive requests go to the same test after the timeout, or to a later one. */
  ghost predicate Spaced(c: Client, s: Sent, t: Sent)
  {
    s.index <= t.index && (s.index == t.index ==> Elapsed(t.at, s.at) >= 1000 * c.config.timeoutSeconds)
  }

  /** What one call of GetNextMessage does to counters and clock. */
  lemma {:induction false} NextCounts(c: Client, now: Time, draw: Tid)
    ensures var (d, o) := GetNextMessage(c, now, draw);
            && d.index >= c.index && d.config == c.config
            && (o.Send? && d.index == c.index ==>
                  && d.sendCount == c.sendCount + 1
                  && (c.sendCount > 0 ==> Elapsed(now, c.lastSent) >= 1000 * c.config.timeoutSeconds))
            && (o.Send? && d.index > c.index ==> d.sendCount == 1)
            && (o.Send? ==> d.lastSent == now)
            && (!o.Send? ==> d.lastSent == c.lastSent && d.sendCount == if d.index == c.index then c.sendCount else 0)
    decreases Remaining(c)
  {
    hide TestsOf, PreRunCheck, NotifyTimeout, Ready, Remaining;
    if c.index < |TestsOf(c.config)| {
      var d, t := Checked(c), Current(c);
      CheckedKeeps(c);
      Shrinks(c);
      TimeoutKeeps(d, t);
      if t in d.completed || !Ready(d, t) {
        NextCounts(Skip(d), now, draw);
      } else if Elapsed(now, d.lastSent) / 1000 < d.config.timeoutSeconds && d.sendCount != 0 {
      } else if d.sendCount >= d.config.maxAttempts {
        NextCounts(NotifyTimeout(d, t), now, draw);
      }
    }
  }

  lemma CountAppend(log: seq<Sent>, s: Sent, k: nat)
    ensures Count(log + [s], k) == Count(log, k) + if s.index == k then 1 else 0
  {
  }

  lemma AskLog(h: History, now: Time, draw: Tid)
    requires Base(h.client) && Sendable(h.client) && LogOk(h)
    ensures LogOk(After(h, Ask(now, draw)))
  {
    hide Base, Settled, TestsOf, GetNextMessage, Elapsed, Count;
    NextSettles(h.client, now, draw);
    NextCounts(h.client, now, draw);
    AskCounts(h, now, draw);
    var c, log := h.client, h.log;
    var (d, o) := GetNextMessage(c, now, draw);
    var g := After(h, Ask(now, draw));
    forall i | 0 <= i < |g.log| ensures TidKept(d, g.log[i]) {
      if i < |log| {
        assert TidKept(c, log[i]);
      }
    }
    forall i | 0 < i < |g.log| ensures Spaced(d, g.log[i - 1], g.log[i]) {
      if i < |log| {
        assert Spaced(c, log[i - 1], log[i]);
      } else {
        LastIsNotLater(h);
      }
    }
  }

  /** No logged request is for a test beyond the current one. */
  lemma LastIsNotLater(h: History)
    requires LogOk(h) && h.log != []
    ensures h.log[|h.log| - 1].index <= h.client.index
    ensures h.log[|h.log| - 1].index == h.client.index ==> h.client.sendCount > 0
  {
    var k := h.log[|h.log| - 1].index;
    assert Count(h.log, k) >= 1;
  }

  lemma AskCounts(h: History, now: Time, draw: Tid)
    requires Base(h.client) && Sendable(h.client) && LogOk(h)
    ensures var g := After(h, Ask(now, draw));
            && (forall k :: Count(g.log, k) <= g.client.config.maxAttempts)
            && (forall k :: k >= g.client.index ==>
                  Count(g.log, k) == if k == g.client.index then g.client.sendCount else 0)
  {
    hide TestsOf, GetNextMessage, Elapsed, Count, TidKept, Spaced, Base, Settled;
    NextSettles(h.client, now, draw);
    NextCounts(h.client, now, draw);
    var (d, o) := GetNextMessage(h.client, now, draw);
    SettledCount(d);
    if o.Send? {
      forall k: nat ensures Count(After(h, Ask(now, draw)).log, k) == Count(h.log, k) + if k == d.index then 1 else 0 {
        CountAppend(h.log, Sent(d.index, now, o.tid), k);
      }
    }
  }

  lemma SettledCount(c: Client)
    requires Settled(c)
    ensures c.sendCount <= c.config.maxAttempts
  {
  }

  /** The history after any calls. */
  ghost function Run(h: History, calls: seq<Call>): History
    decreases |calls|
  {
    if calls == [] then h else Run(After(h, calls[0]), calls[1..])
  }

  ghost predicate Good(h: History)
  {
    Settled(h.client) && Sendable(h.client) && LogOk(h)
  }

  lemma AskGood(h: History, now: Time, draw: Tid)
    requires Good(h)
    ensures Good(After(h, Ask(now, draw))) && After(h, Ask(now, draw)).client.config == h.client.config
  {
    hide TestsOf, GetNextMessage, LogOk, Base;
    NextSettles(h.client, now, draw);
    AskLog(h, now, draw);
  }

  /** The log does not notice a response. */
  lemma SameLog(h: History, d: Client)
    requires LogOk(h) && d.tids == h.client.tids && d.config == h.client.config
    requires d.index == h.client.index && d.sendCount == h.client.sendCount && d.lastSent == h.client.lastSent
    ensures LogOk(h.(client := d))
  {
    hide TestsOf, Count, Elapsed;
    forall i | 0 <= i < |h.log| ensures TidKept(d, h.log[i]) {
      assert TidKept(h.client, h.log[i]);
    }
    forall i | 0 < i < |h.log| ensures Spaced(d, h.log[i - 1], h.log[i]) {
      SpacedSame(h.client, d, h.log[i - 1], h.log[i]);
    }
  }

  lemma AfterGood(h: History, call: Call)
    requires Good(h)
    ensures Good(After(h, call)) && After(h, call).client.config == h.client.config
  {
    hide TestsOf, GetNextMessage, ProcessResponse, LogOk, Settled, Sendable, AddressOk, AddressesOk;
    match call
    case Ask(now, draw) => AskGood(h, now, draw);
    case Hear(b, local) =>
      if AddressOk(local) {
        ResponseSettles(h.client, b, local);
        SameLog(h, ProcessResponse(h.client, b, local));
      }
  }

  lemma SpacedSame(c: Client, d: Client, s: Sent, t: Sent)
    requires Spaced(c, s, t) && d.config == c.config
    ensures Spaced(d, s, t)
  {
  }

  lemma {:induction false} RunGood(h: History, calls: seq<Call>)
    requires Good(h)
    ensures Good(Run(h, calls)) && Run(h, calls).client.config == h.client.config
    decreases |calls|
  {
    hide Good, After;
    if calls != [] {
      AfterGood(h, calls[0]);
      RunGood(After(h, calls[0]), calls[1..]);
    }
  }

  ghost predicate Started(c: Client)
  {
    exists server, instant, timeout, attempts, behavior, filtering ::
      AddressOk(server) && c == Initialize(server, instant, timeout, attempts, behavior, filtering)
  }

  lemma StartBase(c: Client)
    requires Started(c)
    ensures Base(c) && Sendable(c) && LogOk(History(c, []))
  {
  }

  /** A run from the start: any calls, the first of them asking for a message. */
  ghost predicate IsRun(c: Client, calls: seq<Call>)
  {
    Started(c) && calls != [] && calls[0].Ask?
  }

  lemma RunFromStart(c: Client, calls: seq<Call>)
    requires IsRun(c, calls)
    ensures Good(Run(History(c, []), calls)) && Run(History(c, []), calls).client.config == c.config
  {
    hide Base, GetNextMessage, LogOk, Started, Initialize, TestsOf;
    StartBase(c);
    var h, call := History(c, []), calls[0];
    NextSettles(c, call.now, call.draw);
    AskLog(h, call.now, call.draw);
    RunGood(After(h, call), calls[1..]);
  }

  /** What was asked for and can be known is known. */
  ghost predicate AllDecided(config: Config, r: Results)
  {
    && (config.filteringTest && r.bindingSuccess && (r.isDirect || r.hasOther) ==> r.filtering != UnknownFiltering)
    && (config.behaviorTest && r.bindingSuccess && r.isDirect ==> r.behavior == DirectMapping)
  }

  lemma SettledDecides(c: Client)
    requires Settled(c)
    ensures Evidence(c.results)
    ensures c.index == |TestsOf(c.config)| ==> AllDecided(c.config, c.results)
  {
    hide TestsOf, SameIPAndPort;
    TestsInOrder(c.config);
    if c.index == |TestsOf(c.config)| {
      assert c.config.filteringTest ==> Passed(c, Filtering2) && Passed(c, Filtering3);
      assert c.config.behaviorTest ==> Passed(c, Behavior2);
    }
  }

  /** In every run every verdict rests on its evidence, each success flag says whether there is a
      verdict, a failed binding test leaves everything unknown; and when the results are ready, a
      requested filtering test is decided if the client is direct or the server has another address. */
  lemma VerdictsAreSound(c: Client, calls: seq<Call>)
    requires IsRun(c, calls)
    ensures var d := Run(History(c, []), calls).client;
            && AddressesOk(d) && Evidence(d.results)
            && (d.index == |TestsOf(c.config)| ==> AllDecided(c.config, d.results))
  {
    hide GetNextMessage, LogOk, Run, Initialize, TestsOf, Base;
    RunFromStart(c, calls);
    SettledDecides(Run(History(c, []), calls).client);
    SettledAddresses(Run(History(c, []), calls).client);
  }

  /** In every run each test sends at most the configured number of requests, all with one
      transaction id, successive ones at least the timeout apart on the wrapping clock. */
  lemma RetransmissionIsBounded(c: Client, calls: seq<Call>)
    requires IsRun(c, calls)
    ensures var log := Run(History(c, []), calls).log;
            && (forall k :: Count(log, k) <= c.config.maxAttempts)
            && (forall i, j :: 0 <= i < j < |log| && log[i].index == log[j].index ==> log[i].tid == log[j].tid)
            && (forall i :: 0 < i < |log| ==> Spaced(c, log[i - 1], log[i]))
  {
    hide GetNextMessage, Run, Initialize, Settled, Count, TestsOf;
    RunFromStart(c, calls);
    var g := Run(History(c, []), calls);
    forall i, j | 0 <= i < j < |g.log| && g.log[i].index == g.log[j].index ensures g.log[i].tid == g.log[j].tid {
      assert TidKept(g.client, g.log[i]) && TidKept(g.client, g.log[j]);
    }
    forall i | 0 < i < |g.log| ensures Spaced(c, g.log[i - 1], g.log[i]) {
      SpacedSame(g.client, c, g.log[i - 1], g.log[i]);
    }
  }

  lemma {:induction false} FinishedStays(h: History, calls: seq<Call>)
    requires h.client.index >= |TestsOf(h.client.config)|
    ensures Run(h, calls) == h
    decreases |calls|
  {
    hide TestsOf;
    if calls != [] {
      assert After(h, calls[0]) == h;
      FinishedStays(h, calls[1..]);
    }
  }

  /** Once asking has been answered with the results, no call changes anything any more. */
  lemma ReadyIsFinal(c: Client, calls: seq<Call>, now: Time, draw: Tid, more: seq<Call>)
    requires IsRun(c, calls) && GetNextMessage(Run(History(c, []), calls).client, now, draw).1 == ResultsReady
    ensures var g := After(Run(History(c, []), calls), Ask(now, draw)); Run(g, more) == g
  {
    hide GetNextMessage, LogOk, Run, Initialize, TestsOf, Base;
    RunFromStart(c, calls);
    var g := Run(History(c, []), calls);
    NextSettles(g.client, now, draw);
    FinishedStays(After(g, Ask(now, draw)), more);
  }
}

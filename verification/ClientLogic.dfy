/** CStunClientLogic as it runs: a list of test objects that share one record of results, each with its
    own completed flag and transaction id. */
module ClientLogic {
  import opened Bits
  import opened Options
  import opened Wire
  import opened Addresses
  import opened Discovery
  import opened DiscoveryRuns

  /** A transaction id of zeros has not been drawn yet. */
  const NO_TID: seq<Byte> := Blank(16)

  datatype TestState = TestState(completed: bool, tid: seq<Byte>)

  // ---- The value the objects stand for ----

  ghost predicate Has(config: Config, ss: seq<TestState>, t: Test)
  {
    Requested(config, t) && Position(config, t) < |ss|
  }

  ghost function CompletedOf(config: Config, ss: seq<TestState>): set<Test>
  {
    set t: Test | Has(config, ss, t) && ss[Position(config, t)].completed
  }

  ghost function TidsOf(config: Config, ss: seq<TestState>): map<Test, seq<Byte>>
  {
    map t: Test | Has(config, ss, t) && ss[Position(config, t)].tid != NO_TID :: ss[Position(config, t)].tid
  }

  /** One test's share of the client. */
  ghost predicate Shows(c: Client, t: Test, s: TestState)
  {
    && (s.completed <==> t in c.completed)
    && (s.tid != NO_TID <==> t in c.tids) && (t in c.tids ==> c.tids[t] == s.tid)
  }

  ghost predicate SameOthers(c: Client, d: Client, t: Test)
  {
    forall u :: u != t ==> (u in c.completed <==> u in d.completed) && (u in c.tids <==> u in d.tids)
                           && (u in c.tids ==> c.tids[u] == d.tids[u])
  }

  lemma RebuildAt(ss: seq<TestState>, i: nat, s: TestState, c: Client, d: Client, u: Test)
    requires i < |ss| == |TestsOf(d.config)| && Shows(d, TestsOf(d.config)[i], s)
    requires SameOthers(c, d, TestsOf(d.config)[i])
    requires c.completed == CompletedOf(d.config, ss) && c.tids == TidsOf(d.config, ss)
    ensures u in CompletedOf(d.config, ss[i := s]) <==> u in d.completed
    ensures u in TidsOf(d.config, ss[i := s]) <==> u in d.tids
    ensures u in d.tids ==> TidsOf(d.config, ss[i := s])[u] == d.tids[u]
  {
    hide TestsOf, Position, Requested;
    PositionOf(d.config, i, u);
    if u != TestsOf(d.config)[i] {
      assert u in c.completed <==> u in d.completed;
    }
  }

  /** Tests and places correspond. */
  lemma PositionOf(config: Config, i: nat, u: Test)
    requires i < |TestsOf(config)|
    ensures u == TestsOf(config)[i] <==> Requested(config, u) && Position(config, u) == i
    ensures Requested(config, u) ==> Position(config, u) < |TestsOf(config)|
  {
    TestsInOrder(config);
    hide TestsOf, Position, Requested;
  }

  /** When one test object moves with the client, so do all of them together. */
  lemma Rebuild(ss: seq<TestState>, i: nat, s: TestState, c: Client, d: Client)
    requires i < |ss| == |TestsOf(d.config)| && Shows(d, TestsOf(d.config)[i], s)
    requires SameOthers(c, d, TestsOf(d.config)[i])
    requires c.completed == CompletedOf(d.config, ss) && c.tids == TidsOf(d.config, ss)
    ensures CompletedOf(d.config, ss[i := s]) == d.completed && TidsOf(d.config, ss[i := s]) == d.tids
  {
    hide *;
    forall u ensures u in CompletedOf(d.config, ss[i := s]) <==> u in d.completed {
      RebuildAt(ss, i, s, c, d, u);
    }
    forall u ensures (u in TidsOf(d.config, ss[i := s]) <==> u in d.tids)
                     && (u in d.tids ==> TidsOf(d.config, ss[i := s])[u] == d.tids[u]) {
      RebuildAt(ss, i, s, c, d, u);
    }
    assert TidsOf(d.config, ss[i := s]) == d.tids;
  }

  lemma ShareOf(ss: seq<TestState>, i: nat, c: Client)
    requires i < |ss| == |TestsOf(c.config)| && c.completed == CompletedOf(c.config, ss)
    requires c.tids == TidsOf(c.config, ss)
    ensures Shows(c, TestsOf(c.config)[i], ss[i])
  {
    hide TestsOf, Position, Requested;
    PositionOf(c.config, i, TestsOf(c.config)[i]);
  }

  // ---- The test objects ----

  /** The record all tests write to. */
  class SharedResults {
    var r: Results

    constructor ()
      ensures r == NO_RESULTS
    {
      r := NO_RESULTS;
    }
  }

  /** A test; `c` of its methods is the client it is part of. */
  class ClientTest {
    const kind: Test
    const config: Config
    const shared: SharedResults
    var completed: bool
    var tid: seq<Byte>

    ghost function State(): TestState
      reads this
    {
      TestState(completed, tid)
    }

    ghost predicate Fits(c: Client)
      reads this, shared
    {
      c.config == config && c.results == shared.r && Shows(c, kind, State())
    }

    constructor (kind: Test, config: Config, shared: SharedResults)
      ensures this.kind == kind && this.config == config && this.shared == shared && State() == TestState(false, NO_TID)
    {
      this.kind, this.config, this.shared := kind, config, shared;
      completed, tid := false, NO_TID;
    }

    method PreRunCheckOf(ghost c: Client)
      requires Fits(c)
      modifies this, shared
      ensures Fits(PreRunCheck(c, kind))
    {
      if shared.r.bindingSuccess && shared.r.isDirect {
        if kind == Behavior2 {
          completed := true;
          shared.r := shared.r.(behavior := DirectMapping, behaviorSuccess := true);
        } else if kind == Filtering2 {
          completed := true;
          shared.r := shared.r.(filtering := EndpointIndependentFiltering, filteringSuccess := true);
        }
      }
    }

    method IsReadyToRun(ghost c: Client) returns (ready: bool)
      requires Fits(c)
      ensures ready == Ready(c, kind)
    {
      if kind == Binding {
        return !completed;
      }
      var r := shared.r;
      ready := !completed && r.bindingSuccess && r.hasOther;
      if kind == Behavior2 || kind == Behavior3 {
        ready := ready && !r.behaviorSuccess;
        if kind == Behavior3 {
          ready := ready && !IsIPZero(r.mappingAP);
        }
      } else {
        ready := ready && !r.filteringSuccess && !r.gotTest2;
      }
    }

    method NotifyTimeoutOf(ghost c: Client)
      requires Fits(c)
      modifies this, shared
      ensures Fits(NotifyTimeout(c, kind))
    {
      completed := true;
      match kind
      case Binding => shared.r := shared.r.(bindingSuccess := false);
      case Behavior2 => shared.r := shared.r.(behaviorSuccess := false);
      case Behavior3 => shared.r := shared.r.(behaviorSuccess := false);
      case Filtering2 =>
      case Filtering3 =>
        shared.r := shared.r.(filteringSuccess := true, filtering := AddressAndPortDependentFiltering);
    }

    /** Draws the transaction id the first time. */
    method GetMessage(draw: Tid, now: Time, ghost c: Client) returns (o: Outcome)
      requires Fits(c)
      modifies this
      ensures Fits(SendRequest(c, kind, now, draw).0) && o == SendRequest(c, kind, now, draw).1
    {
      hide DestinationOf;
      if tid == NO_TID {
        DrawnIsValid(draw);
        tid := draw;
      }
      var dest := Destination(c);
      o := Send(dest, tid);
    }

    method Destination(ghost c: Client) returns (dest: Address)
      requires c.config == config && c.results == shared.r
      ensures dest == DestinationOf(c, kind)
    {
      dest := config.server;
      if kind == Behavior2 {
        dest := shared.r.ap;
      } else if kind == Behavior3 {
        dest := shared.r.aa;
      }
    }

    /** A response to this test; a foreign one, or one without the address it needs, changes nothing. */
    method ProcessResponseOf(b: seq<Byte>, local: Address, ghost c: Client)
      requires Fits(c) && AddressesOk(c) && AddressOk(local) && !completed
      requires c.index < |TestsOf(config)| && Current(c) == kind
      modifies this, shared
      ensures Fits(ProcessResponse(c, b, local))
    {
      hide ReadResponse, SameIPAndPort, SetPort, Port, TestsOf, AddressOk;
      var p := ReadResponse(Client(config, shared.r, 0, 0, 0, false, {}, map[kind := tid]), kind, b);
      assert p == ReadResponse(c, kind, b) by {
        SameResponse(c, Client(config, shared.r, 0, 0, 0, false, {}, map[kind := tid]), kind, b);
      }
      if p.Foreign? {
        return;
      }
      if kind == Filtering2 || kind == Filtering3 {
        FilteringResponse(c);
      } else if p.mapped.Some? {
        if kind == Binding {
          BindingResponse(p.mapped.value, p.other, local, c);
        } else {
          BehaviorResponse(p.mapped.value, c);
        }
      }
    }

    method FilteringResponse(ghost c: Client)
      requires Fits(c) && (kind == Filtering2 || kind == Filtering3)
      modifies this, shared
      ensures Fits(TakeFiltering(c, kind))
    {
      completed := true;
      if kind == Filtering3 {
        shared.r := shared.r.(gotTest3 := true, filteringSuccess := true, filtering := AddressDependentFiltering);
      } else {
        shared.r := shared.r.(gotTest2 := true, filteringSuccess := true, filtering := EndpointIndependentFiltering);
      }
    }

    method BindingResponse(mapped: Address, other: Option<Address>, local: Address, ghost c: Client)
      requires Fits(c) && kind == Binding && AddressOk(local) && AddressOk(mapped) && AddressOk(config.server)
      requires other.Some? ==> AddressOk(other.value)
      modifies this, shared
      ensures Fits(TakeBinding(c, mapped, other, local))
    {
      hide SameIPAndPort, SetPort, Port;
      completed := true;
      var r := shared.r.(bindingSuccess := true, isDirect := SameIPAndPort(local, mapped), local := local,
                         mapped := mapped, hasOther := other.Some?);
      if other.Some? {
        r := r.(aa := other.value, pa := SetPort(config.server, Port(other.value)),
                ap := SetPort(other.value, Port(config.server)));
      }
      shared.r := r;
    }

    method BehaviorResponse(mapped: Address, ghost c: Client)
      requires Fits(c) && (kind == Behavior2 || kind == Behavior3)
      requires AddressOk(mapped) && AddressOk(c.results.mapped) && AddressOk(c.results.mappingAP)
      modifies this, shared
      ensures Fits(TakeBehavior(c, kind, mapped))
    {
      hide SameIPAndPort, AddressOk;
      var r := shared.r;
      completed := true;
      if kind == Behavior3 {
        var verdict := AddressAndPortDependentMapping;
        if SameIPAndPort(mapped, r.mappingAP) {
          verdict := AddressDependentMapping;
        }
        shared.r := r.(mappingAA := mapped, behaviorSuccess := true, behavior := verdict);
      } else if SameIPAndPort(mapped, r.mapped) {
        shared.r := r.(mappingAP := mapped, behaviorSuccess := true, behavior := EndpointIndependentMapping);
      } else {
        shared.r := r.(mappingAP := mapped);
      }
    }
  }

  /** Only the test's own transaction id decides whether a response is for it. */
  lemma SameResponse(c: Client, d: Client, t: Test, b: seq<Byte>)
    requires TidOf(c, t) == TidOf(d, t)
    ensures ReadResponse(c, t, b) == ReadResponse(d, t, b)
  {
  }

  lemma DrawnIsValid(t: Tid)
    ensures t != NO_TID
  {
    assert t[..4][0] == COOKIE[0];
  }

  // ---- The client ----

  method NewTests(config: Config, shared: SharedResults) returns (list: seq<ClientTest>)
    ensures fresh(list) && |list| == |TestsOf(config)|
    ensures forall i :: 0 <= i < |list| ==> IsNew(list[i], TestsOf(config)[i], config, shared)
    ensures forall i, j :: 0 <= i < j < |list| ==> list[i] != list[j]
  {
    hide TestsOf;
    list := [];
    var kinds := TestsOf(config);
    for k := 0 to |kinds|
      invariant |list| == k && fresh(list)
      invariant forall i :: 0 <= i < k ==> IsNew(list[i], kinds[i], config, shared)
      invariant forall i, j :: 0 <= i < j < k ==> list[i] != list[j]
    {
      var test := new ClientTest(kinds[k], config, shared);
      list := list + [test];
    }
  }

  ghost predicate IsNew(test: ClientTest, kind: Test, config: Config, shared: SharedResults)
    reads test
  {
    test.kind == kind && test.config == config && test.shared == shared && test.State() == TestState(false, NO_TID)
  }

  lemma NothingYet(config: Config, ss: seq<TestState>)
    requires forall i :: 0 <= i < |ss| ==> ss[i] == TestState(false, NO_TID)
    ensures CompletedOf(config, ss) == {} && TidsOf(config, ss) == map[]
  {
  }

  class StunClientLogic {
    const config: Config
    const shared: SharedResults
    const tests: seq<ClientTest>
    var index: nat
    var sendCount: nat
    var lastSent: nat
    var preChecked: bool

    ghost predicate Valid()
    {
      && |tests| == |TestsOf(config)|
      && (forall i :: 0 <= i < |tests| ==> Belongs(i))
      && (forall i, j :: 0 <= i < j < |tests| ==> tests[i] != tests[j])
    }

    ghost predicate Belongs(i: nat)
      requires i < |tests| == |TestsOf(config)|
    {
      tests[i].kind == TestsOf(config)[i] && tests[i].config == config && tests[i].shared == shared
    }

    ghost function States(): (ss: seq<TestState>)
      reads tests
      ensures |ss| == |tests| && forall i :: 0 <= i < |tests| ==> ss[i] == tests[i].State()
    {
      seq(|tests|, i requires 0 <= i < |tests| reads tests => tests[i].State())
    }

    ghost function Model(): Client
      reads this, shared, tests
    {
      Client(config, shared.r, index, sendCount, lastSent, preChecked,
             CompletedOf(config, States()), TidsOf(config, States()))
    }

    /** A new client is at the beginning of a run. */
    constructor (server: Address, instant: bool, timeoutSeconds: nat, maxAttempts: nat, behaviorTest: bool,
                 filteringTest: bool)
      requires AddressOk(server)
      ensures Valid() && Started(Model()) && Model().config.server == server && fresh(shared) && fresh(tests)
      ensures TestsOf(config) == [Binding] + (if behaviorTest then [Behavior2, Behavior3] else [])
                                 + (if filteringTest then [Filtering2, Filtering3] else [])
    {
      var timeout := timeoutSeconds;
      if instant {
        timeout := 0;
      } else if timeoutSeconds == 0 {
        timeout := 3;
      }
      var cfg := Config(server, timeout, if maxAttempts == 0 then 2 else maxAttempts, behaviorTest, filteringTest);
      var results := new SharedResults();
      var list := NewTests(cfg, results);
      config, shared, tests := cfg, results, list;
      index, sendCount, lastSent, preChecked := 0, 0, 0, false;
      new;
      NothingYet(config, States());
      assert Model() == Initialize(server, instant, timeoutSeconds, maxAttempts, behaviorTest, filteringTest);
    }

    /** The current test and the client agree. */
    lemma CurrentFits()
      requires Valid() && index < |tests|
      ensures tests[index].Fits(Model()) && Current(Model()) == tests[index].kind
    {
      hide TestsOf, Shows, CompletedOf, TidsOf;
      assert Belongs(index);
      ShareOf(States(), index, Model());
    }

    /** After the current test's object, and no other, has moved to its share of `d`. */
    lemma Moved(before: seq<TestState>, c: Client, d: Client)
      requires Valid() && index < |tests| && c.config == d.config == config && |before| == |tests|
      requires c.completed == CompletedOf(config, before) && c.tids == TidsOf(config, before)
      requires forall i :: 0 <= i < |tests| && i != index ==> before[i] == tests[i].State()
      requires tests[index].Fits(d) && SameOthers(c, d, tests[index].kind)
      ensures CompletedOf(config, States()) == d.completed && TidsOf(config, States()) == d.tids
      ensures shared.r == d.results
    {
      hide TestsOf, Shows, CompletedOf, TidsOf, SameOthers;
      assert Belongs(index);
      assert States() == before[index := tests[index].State()];
      Rebuild(before, index, tests[index].State(), c, d);
    }

    method CheckOnce()
      requires Valid() && index < |tests|
      modifies this, shared, tests
      ensures Valid() && Model() == Checked(old(Model()))
    {
      hide TestsOf, Shows, CompletedOf, TidsOf;
      if !preChecked {
        ghost var c, before := Model(), States();
        CurrentFits();
        assert Belongs(index);
        tests[index].PreRunCheckOf(c);
        Moved(before, c, PreRunCheck(c, Current(c)));
        preChecked := true;
      }
    }

    method TimeOut()
      requires Valid() && index < |tests|
      modifies shared, tests
      ensures Valid() && Model() == NotifyTimeout(old(Model()), Current(old(Model())))
    {
      hide TestsOf, Shows, CompletedOf, TidsOf;
      ghost var c, before := Model(), States();
      CurrentFits();
      assert Belongs(index);
      tests[index].NotifyTimeoutOf(c);
      Moved(before, c, NotifyTimeout(c, Current(c)));
    }

    method SendNext(now: Time, draw: Tid) returns (o: Outcome)
      requires Valid() && index < |tests|
      modifies this, tests
      ensures Valid() && (Model(), o) == SendRequest(old(Model()), Current(old(Model())), now, draw)
    {
      hide TestsOf, Shows, CompletedOf, TidsOf;
      ghost var c, before := Model(), States();
      CurrentFits();
      assert Belongs(index);
      o := tests[index].GetMessage(draw, now, c);
      Moved(before, c, SendRequest(c, Current(c), now, draw).0);
      sendCount := sendCount + 1;
      lastSent := now;
    }

    /** One turn of the loop: either it ends the call or it moves on. */
    method Turn(now: Time, draw: Tid) returns (o: Option<Outcome>)
      requires Valid() && index < |tests|
      modifies this, shared, tests
      ensures Valid()
      ensures o.Some? ==> (Model(), o.value) == GetNextMessage(old(Model()), now, draw)
      ensures o.None? ==> Remaining(Model()) < Remaining(old(Model()))
      ensures o.None? ==> GetNextMessage(Model(), now, draw) == GetNextMessage(old(Model()), now, draw)
    {
      hide TestsOf, PreRunCheck, NotifyTimeout, Ready, Remaining, Elapsed, Checked, CompletedOf, TidsOf, Shows, Belongs;
      Shrinks(Model());
      CheckedKeeps(Model());
      CheckOnce();
      CurrentFits();
      var ready := tests[index].IsReadyToRun(Model());
      assert tests[index].completed <==> Current(Model()) in Model().completed by {
        ShowsCompleted(Model(), tests[index].kind, tests[index].State());
      }
      if tests[index].completed || !ready {
        index, sendCount, preChecked := index + 1, 0, false;
        return None;
      }
      var diff := Elapsed(now, lastSent) / 1000;
      if diff < config.timeoutSeconds && sendCount != 0 {
        return Some(StillWaiting);
      }
      if sendCount >= config.maxAttempts {
        TimeOut();
        return None;
      }
      var sent := SendNext(now, draw);
      o := Some(sent);
    }

    /** Ends, and does what the model says; whatever was called before, results are announced only when
        every requested test is decided, and every verdict so far rests on its evidence. */
    method NextMessage(now: Time, draw: Tid) returns (o: Outcome)
      requires Valid() && Base(Model()) && Sendable(Model())
      modifies this, shared, tests
      ensures Valid() && (Model(), o) == GetNextMessage(old(Model()), now, draw)
      ensures Settled(Model()) && Sendable(Model()) && Evidence(shared.r)
      ensures o == ResultsReady <==> index == |tests|
      ensures o == ResultsReady ==> AllDecided(config, shared.r)
    {
      hide TestsOf, Remaining, CompletedOf, TidsOf, Shows, Belongs, Base, GetNextMessage, Settled, Sendable;
      NextSettles(Model(), now, draw);
      ghost var c := Model();
      o := ResultsReady;
      var running := true;
      while running && index < |tests|
        invariant Valid() && c.config == config
        invariant running ==> o == ResultsReady && GetNextMessage(Model(), now, draw) == GetNextMessage(c, now, draw)
        invariant !running ==> (Model(), o) == GetNextMessage(c, now, draw)
        decreases running, Remaining(Model())
      {
        var r := Turn(now, draw);
        if r.Some? {
          o := r.value;
          running := false;
        }
      }
      if running {
        EndOfTests(Model(), now, draw);
      }
      SettledDecides(Model());
    }

    /** A response keeps every verdict grounded; one that is not for the current test changes nothing. */
    method HandleResponse(b: seq<Byte>, local: Address)
      requires Valid() && Settled(Model()) && Sendable(Model()) && AddressOk(local)
      modifies shared, tests
      ensures Valid() && AddressesOk(old(Model())) && Model() == ProcessResponse(old(Model()), b, local)
      ensures Settled(Model()) && Sendable(Model()) && Evidence(shared.r)
    {
      hide TestsOf, CompletedOf, TidsOf, Shows, Base, ProcessResponse, AddressesOk, AddressOk, Settled, Sendable;
      hide Evidence;
      ghost var c, before := Model(), States();
      ResponseSettles(c, b, local);
      SettledDecides(ProcessResponse(c, b, local));
      if index < |tests| {
        CurrentFits();
        assert Belongs(index);
        ShowsCompleted(c, tests[index].kind, tests[index].State());
        if !tests[index].completed {
          tests[index].ProcessResponseOf(b, local, c);
          ResponseOthers(c, b, local);
          Moved(before, c, ProcessResponse(c, b, local));
          return;
        }
      }
      ResponseIgnored(c, b, local);
    }
  }

  lemma ShowsCompleted(c: Client, t: Test, s: TestState)
    requires Shows(c, t, s)
    ensures s.completed <==> t in c.completed
  {
  }

  lemma EndOfTests(c: Client, now: Time, draw: Tid)
    requires c.index >= |TestsOf(c.config)|
    ensures GetNextMessage(c, now, draw) == (c, ResultsReady)
  {
    hide TestsOf;
  }

  lemma ResponseOthers(c: Client, b: seq<Byte>, local: Address)
    requires AddressesOk(c) && AddressOk(local) && c.index < |TestsOf(c.config)|
    ensures var d := ProcessResponse(c, b, local);
            d == c.(results := d.results, completed := d.completed) && SameOthers(c, d, Current(c))
  {
    hide TestsOf, ReadResponse, SameIPAndPort, SetPort, Port;
  }

  lemma ResponseIgnored(c: Client, b: seq<Byte>, local: Address)
    requires AddressesOk(c) && AddressOk(local) && (c.index >= |TestsOf(c.config)| || Current(c) in c.completed)
    ensures ProcessResponse(c, b, local) == c
  {
  }
}

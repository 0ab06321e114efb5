/** In every run behind a NAT the client names its mapping correctly, and its filtering exactly when it can. */
module NatRuns {
  import opened Bits
  import opened Options
  import opened Addresses
  import opened Handler
  import opened Discovery
  import opened DiscoveryRuns
  import opened Nats
  import EndToEnd
  import opened Arithmetic

  // ---- What the client's state says about the NAT ----

  ghost predicate BindingLearned(w: World, c: Client)
  {
    var r := c.results;
    Binding in c.completed ==>
      && r.bindingSuccess && r.mapped == w.mapping(PPAt(w)) && (r.isDirect <==> IsDirect(w))
      && r.hasOther && r.aa == AAAt(w) && r.ap == APAt(w)
  }

  ghost predicate BehaviorLearned(w: World, c: Client)
  {
    var r := c.results;
    && (r.behaviorSuccess ==> r.behavior == TrueBehavior(w))
    && (Behavior2 in c.completed && !r.behaviorSuccess ==>
          !IsDirect(w) && !SameTowardsAP(w) && r.mappingAP == w.mapping(APAt(w)))
    && (Behavior3 in c.completed ==> r.behaviorSuccess)
    && (Passed(c, Behavior3) ==> r.behaviorSuccess)
  }

  ghost predicate FilteringLearned(w: World, c: Client)
  {
    var r, v := c.results, Conclusion(w, c.config.behaviorTest);
    && (r.filteringSuccess ==> r.filtering == v)
    && (Filtering2 in c.completed && !r.filteringSuccess ==> v != EndpointIndependentFiltering)
  }

  /** Who has been written to. */
  ghost predicate Contacts(w: World, c: Client, sent: set<Address>)
  {
    && sent <= {PPAt(w), APAt(w), AAAt(w)}
    && (Binding in c.completed ==> PPAt(w) in sent)
    && (APAt(w) in sent ==> c.config.behaviorTest && !IsDirect(w))
    && (AAAt(w) in sent ==> c.config.behaviorTest && !IsDirect(w) && !SameTowardsAP(w))
    && (Behavior2 in c.completed && !IsDirect(w) ==> APAt(w) in sent)
    && (c.results.behaviorSuccess && !IsDirect(w) && !SameTowardsAP(w) ==> AAAt(w) in sent)
  }

  /** Only the filtering tests ever wait in vain, and then the NAT is to blame. */
  ghost predicate Waiting(w: World, c: Client)
  {
    c.sendCount > 0 && c.index < |TestsOf(c.config)| && Current(c) !in c.completed ==>
      || (Current(c) == Filtering2 && Conclusion(w, c.config.behaviorTest) != EndpointIndependentFiltering)
      || (Current(c) == Filtering3 && Conclusion(w, c.config.behaviorTest) == AddressAndPortDependentFiltering)
  }

  ghost predicate TidsOk(c: Client)
  {
    forall t :: t in c.tids ==> |c.tids[t]| == 16
  }

  ghost predicate Tracks(w: World, c: Client, sent: set<Address>)
  {
    && c.config.server == PPAt(w) && Base(c) && Sendable(c) && TidsOk(c)
    && BindingLearned(w, c) && BehaviorLearned(w, c) && FilteringLearned(w, c)
    && Contacts(w, c, sent) && Waiting(w, c)
  }

  // ---- Each step of the loop keeps it ----

  /** Without a binding nothing is known; past the first test there is one. */
  lemma BindingFirst(c: Client)
    requires Base(c)
    ensures c.results.bindingSuccess || c.index > 0 ==> Binding in c.completed
  {
  }

  lemma CheckedTracks(w: World, c: Client, sent: set<Address>)
    requires Tracks(w, c, sent) && c.index < |TestsOf(c.config)|
    ensures Tracks(w, Checked(c), sent)
  {
    hide TestsOf, Base;
    BindingFirst(c);
    CheckedBase(c);
    CheckedKeeps(c);
  }

  lemma SkipTracks(w: World, c: Client, sent: set<Address>)
    requires WorldOk(w) && Tracks(w, c, sent) && c.index < |TestsOf(c.config)| && c.preChecked
    requires Current(c) in c.completed || !Ready(c, Current(c))
    ensures Tracks(w, Skip(c), sent)
  {
    hide TestsOf, Base, WorldOk, Ready, Position, Requested;
    SkipBase(c);
    if Current(c) == Behavior3 {
      SkippedBehavior3(w, c, sent);
    }
    SkipPasses(c);
  }

  /** Going on from a test passes exactly that test. */
  lemma SkipPasses(c: Client)
    requires c.index < |TestsOf(c.config)|
    ensures Passed(Skip(c), Behavior3) <==> Passed(c, Behavior3) || Current(c) == Behavior3
    ensures Sendable(Skip(c))
  {
    hide TestsOf;
    TestsInOrder(c.config);
  }

  /** The second mapping test is left out only when the first one decided. */
  lemma SkippedBehavior3(w: World, c: Client, sent: set<Address>)
    requires WorldOk(w) && Tracks(w, c, sent) && c.index < |TestsOf(c.config)| && Current(c) == Behavior3
    requires Behavior3 in c.completed || !Ready(c, Behavior3)
    ensures c.results.behaviorSuccess
  {
    TestsInOrder(c.config);
    BindingFirst(c);
    assert !IsIPZero(w.mapping(APAt(w)));
    assert Passed(c, Behavior2);
    assert Decided(c);
    hide TestsOf, Base, WorldOk, IsIPZero;
  }

  lemma TimeoutTracks(w: World, c: Client, sent: set<Address>)
    requires Tracks(w, c, sent) && c.index < |TestsOf(c.config)| && c.preChecked && Ready(c, Current(c))
    requires c.sendCount >= c.config.maxAttempts
    ensures Tracks(w, NotifyTimeout(c, Current(c)), sent)
  {
    hide TestsOf, Base, IsIPZero;
    AttemptsAllowed(c);
    TimeoutBase(c);
    TimeoutKeeps(c, Current(c));
  }

  lemma AttemptsAllowed(c: Client)
    requires Base(c)
    ensures c.config.maxAttempts >= 1
  {
  }

  // ---- Who is admitted ----

  /** An answer from where the request went is always admitted. */
  lemma SameSocketAdmitted(w: World, sent: set<Address>, dest: Address)
    requires dest in sent
    ensures Admits(w, sent, dest, w.mapping(dest))
  {
  }

  /** The first filtering test is answered from the opposite socket. */
  lemma OppositeAdmitted(w: World, c: Client, sent: set<Address>)
    requires WorldOk(w) && !IsDirect(w) && Contacts(w, c, sent) && PPAt(w) in sent
    requires c.config.behaviorTest ==> APAt(w) in sent && (!SameTowardsAP(w) ==> AAAt(w) in sent)
    ensures Admits(w, sent, AAAt(w), w.mapping(PPAt(w)))
            <==> Conclusion(w, c.config.behaviorTest) == EndpointIndependentFiltering
  {
    hide WorldOk, PPAt, PAAt, APAt, AAAt;
    FourOf(w);
  }

  /** The second one from the other port of the same host. */
  lemma OtherPortAdmitted(w: World, c: Client, sent: set<Address>)
    requires WorldOk(w) && !IsDirect(w) && Contacts(w, c, sent) && PPAt(w) in sent
    requires Conclusion(w, c.config.behaviorTest) != EndpointIndependentFiltering
    ensures Admits(w, sent, PAAt(w), w.mapping(PPAt(w)))
            <==> Conclusion(w, c.config.behaviorTest) == AddressDependentFiltering
    ensures !Admits(w, sent, PAAt(w), w.mapping(PPAt(w)))
            ==> Conclusion(w, c.config.behaviorTest) == AddressAndPortDependentFiltering
  {
    hide WorldOk, PPAt, PAAt, APAt, AAAt;
    FourOf(w);
  }

  // ---- Sending, and hearing the answer ----

  lemma DestinationIs(w: World, c: Client, t: Test)
    requires c.config.server == PPAt(w) && BindingLearned(w, c) && (t != Binding ==> Binding in c.completed)
    ensures DestinationOf(c, t) == w.server.sockets.At(RoleOf(t)).addr
  {
  }

  /** The client with a request of test `t` under way. */
  ghost predicate Sending(w: World, c: Client, sent: set<Address>, t: Test)
  {
    && c.config.server == PPAt(w) && Settled(c) && Sendable(c) && TidsOk(c) && c.sendCount >= 1
    && c.index < |TestsOf(c.config)| && Current(c) == t && t !in c.completed
    && BindingLearned(w, c) && BehaviorLearned(w, c) && FilteringLearned(w, c)
    && Contacts(w, c, sent) && (t != Binding ==> Binding in c.completed)
  }

  lemma SendSends(w: World, c: Client, sent: set<Address>, now: Time, draw: Tid)
    requires Tracks(w, c, sent) && c.index < |TestsOf(c.config)| && c.preChecked && Ready(c, Current(c))
    requires c.sendCount < c.config.maxAttempts
    ensures Sending(w, SendRequest(c, Current(c), now, draw).0, sent, Current(c))
    ensures SendRequest(c, Current(c), now, draw).1.dest == w.server.sockets.At(RoleOf(Current(c))).addr
  {
    hide TestsOf, Base, Ready, DestinationOf;
    var t := Current(c);
    BindingFirst(c);
    CurrentIsBinding(c);
    DestinationIs(w, c, t);
    SendBase(c, now, draw);
    ReadyCompleted(c, t);
    SentReady(c, t, now, draw);
  }

  lemma CurrentIsBinding(c: Client)
    requires c.index < |TestsOf(c.config)|
    ensures Current(c) == Binding <==> c.index == 0
  {
  }

  lemma BindingTook(w: World, c: Client, sent: set<Address>)
    requires WorldOk(w) && Sending(w, c, sent, Binding) && AddressesOk(c)
    ensures Tracks(w, Took(w, c, Binding), sent + {PPAt(w)})
  {
    hide TestsOf, Base, IsIPZero, SetPort, Port, AddressOk;
    FourAddresses(w);
    var mapped := w.mapping(PPAt(w));
    assert AddressOk(mapped);
    SameIsEqual(w.local, mapped);
    BindingBase(c, mapped, Some(AAAt(w)), w.local);
  }

  /** A test after the binding test has a request under way only when the client is not direct and the
      tests before it were answered. */
  lemma NotDirect(c: Client, t: Test)
    requires Settled(c) && c.index < |TestsOf(c.config)| && Current(c) == t && t !in c.completed && t != Binding
    ensures c.results.bindingSuccess && c.results.hasOther && !c.results.isDirect
    ensures t == Behavior2 || t == Behavior3 ==> !c.results.behaviorSuccess && c.config.behaviorTest
    ensures t == Behavior3 ==> Behavior2 in c.completed
    ensures t == Filtering2 || t == Filtering3 ==> !c.results.filteringSuccess
    ensures (t == Filtering2 || t == Filtering3) && c.config.behaviorTest ==>
              Behavior2 in c.completed && Passed(c, Behavior3)
    ensures t == Filtering3 ==> Filtering2 in c.completed
  {
    hide TestsOf, SameIPAndPort, IsIPZero;
    TestsInOrder(c.config);
    if t == Behavior3 || (c.config.behaviorTest && t != Behavior2) {
      assert Passed(c, Behavior2);
    }
    if t == Filtering3 {
      assert Passed(c, Filtering2);
    }
  }

  lemma Behavior2Took(w: World, c: Client, sent: set<Address>)
    requires WorldOk(w) && Sending(w, c, sent, Behavior2) && AddressesOk(c)
    ensures Tracks(w, Took(w, c, Behavior2), sent + {APAt(w)})
  {
    hide TestsOf, Base, IsIPZero, SameIPAndPort, WorldOk;
    NotDirect(c, Behavior2);
    var mapped := w.mapping(APAt(w));
    MappedOk(w, APAt(w));
    MappedOk(w, PPAt(w));
    FourOf(w);
    SameIsEqual(mapped, w.mapping(PPAt(w)));
    BehaviorBase(c, Behavior2, mapped);
  }

  lemma MappedOk(w: World, d: Address)
    requires WorldOk(w)
    ensures AddressOk(w.mapping(d)) && !IsIPZero(w.mapping(d))
  {
  }

  lemma Behavior3Took(w: World, c: Client, sent: set<Address>)
    requires WorldOk(w) && Sending(w, c, sent, Behavior3) && AddressesOk(c)
    ensures Tracks(w, Took(w, c, Behavior3), sent + {AAAt(w)})
  {
    hide TestsOf, Base, IsIPZero, SameIPAndPort, WorldOk;
    NotDirect(c, Behavior3);
    var mapped := w.mapping(AAAt(w));
    MappedOk(w, AAAt(w));
    MappedOk(w, APAt(w));
    FourOf(w);
    SameIsEqual(mapped, w.mapping(APAt(w)));
    BehaviorBase(c, Behavior3, mapped);
  }

  /** The filtering tests: heard exactly when the conclusion says so. */
  lemma FilteringHeard(w: World, c: Client, sent: set<Address>, t: Test)
    requires WorldOk(w) && Sending(w, c, sent, t) && (t == Filtering2 || t == Filtering3)
    ensures var all := sent + {PPAt(w)};
            var from := w.server.sockets.At(EndToEnd.ProbedRole(t, PP)).addr;
            && Contacts(w, c, all)
            && (Admits(w, all, from, w.mapping(PPAt(w))) ==> Tracks(w, TakeFiltering(c, t), all))
            && (!Admits(w, all, from, w.mapping(PPAt(w))) ==> Tracks(w, c, all))
  {
    hide TestsOf, Base, WorldOk, Admits;
    NotDirect(c, t);
    FourOf(w);
    var all := sent + {PPAt(w)};
    assert Contacts(w, c, all);
    FilteringBase(c, t);
    if t == Filtering2 {
      OppositeAdmitted(w, c, all);
    } else {
      OtherPortAdmitted(w, c, all);
    }
  }

  // ---- Runs ----

  lemma {:induction false} AskTracks(w: World, c: Client, sent: set<Address>, now: Time, draw: Tid)
    requires WorldOk(w) && Tracks(w, c, sent)
    ensures var (d, o) := GetNextMessage(c, now, draw);
            && (!o.Send? ==> Tracks(w, d, sent))
            && (o.Send? ==>
                  d.index < |TestsOf(d.config)| && Sending(w, d, sent, Current(d))
                  && o.dest == w.server.sockets.At(RoleOf(Current(d))).addr)
    decreases Remaining(c)
  {
    hide TestsOf, Tracks, Sending, WorldOk, PreRunCheck, NotifyTimeout, Ready, Remaining, Elapsed, Base;
    if c.index < |TestsOf(c.config)| {
      var d, t := Checked(c), Current(c);
      CheckedTracks(w, c, sent);
      CheckedDone(w, c, sent);
      CheckedKeeps(c);
      Shrinks(c);
      if t in d.completed || !Ready(d, t) {
        SkipTracks(w, d, sent);
        AskTracks(w, Skip(d), sent, now, draw);
      } else if Elapsed(now, d.lastSent) / 1000 < d.config.timeoutSeconds && d.sendCount != 0 {
      } else if d.sendCount >= d.config.maxAttempts {
        TimeoutTracks(w, d, sent);
        AskTracks(w, NotifyTimeout(d, t), sent, now, draw);
      } else {
        SendSends(w, d, sent, now, draw);
      }
    }
  }

  lemma CheckedDone(w: World, c: Client, sent: set<Address>)
    requires Tracks(w, c, sent) && c.index < |TestsOf(c.config)|
    ensures Checked(c).preChecked
  {
    hide TestsOf, Base;
    CheckedBase(c);
  }

  lemma SendingOk(w: World, c: Client, sent: set<Address>, t: Test)
    requires Sending(w, c, sent, t)
    ensures AddressesOk(c) && |TidOf(c, t)| == 16 && t !in c.completed
  {
    hide TestsOf, Base, Ready;
    SettledAddresses(c);
  }

  /** One exchange keeps the client's state true of the NAT. */
  lemma ExchangeTracks(w: World, s: Play, now: Time, draw: Tid)
    requires WorldOk(w) && Tracks(w, s.client, s.sent)
    ensures var p := Exchange(w, s, now, draw); Tracks(w, p.client, p.sent)
  {
    hide TestsOf, Tracks, Sending, WorldOk, GetNextMessage, ProcessResponse, Reply, TidOf, AddressesOk, Admits;
    AskTracks(w, s.client, s.sent, now, draw);
    var (d, o) := GetNextMessage(s.client, now, draw);
    if o.Send? {
      var t, sent := Current(d), s.sent + {o.dest};
      SendingOk(w, d, s.sent, t);
      HearIsTook(w, d);
      AnsweredTracks(w, d, s.sent, t);
    }
  }

  lemma AnsweredTracks(w: World, c: Client, sent: set<Address>, t: Test)
    requires WorldOk(w) && Sending(w, c, sent, t) && AddressesOk(c)
    ensures var dest := w.server.sockets.At(RoleOf(t)).addr;
            var from := w.server.sockets.At(EndToEnd.ProbedRole(t, RoleOf(t))).addr;
            if Admits(w, sent + {dest}, from, w.mapping(dest)) then Tracks(w, Took(w, c, t), sent + {dest})
            else Tracks(w, c, sent + {dest})
  {
    hide Tracks, Sending, WorldOk, TakeBinding, TakeBehavior, TakeFiltering, AddressesOk, Admits;
    var dest := w.server.sockets.At(RoleOf(t)).addr;
    match t
    case Binding =>
      SameSocketAdmitted(w, sent + {dest}, dest);
      BindingTook(w, c, sent);
    case Behavior2 =>
      SameSocketAdmitted(w, sent + {dest}, dest);
      Behavior2Took(w, c, sent);
    case Behavior3 =>
      SameSocketAdmitted(w, sent + {dest}, dest);
      Behavior3Took(w, c, sent);
    case Filtering2 => FilteringHeard(w, c, sent, t);
    case Filtering3 => FilteringHeard(w, c, sent, t);
  }

  /** Any number of exchanges, at any times. */
  ghost function PlayAll(w: World, s: Play, asks: seq<(Time, Tid)>): Play
    requires WorldOk(w)
    decreases |asks|
  {
    if asks == [] then s else PlayAll(w, Exchange(w, s, asks[0].0, asks[0].1), asks[1..])
  }

  lemma {:induction false} PlayTracks(w: World, s: Play, asks: seq<(Time, Tid)>)
    requires WorldOk(w) && Tracks(w, s.client, s.sent)
    ensures var p := PlayAll(w, s, asks); Tracks(w, p.client, p.sent)
    decreases |asks|
  {
    hide Tracks, WorldOk, Exchange;
    if asks != [] {
      ExchangeTracks(w, s, asks[0].0, asks[0].1);
      PlayTracks(w, Exchange(w, s, asks[0].0, asks[0].1), asks[1..]);
    }
  }

  lemma StartTracks(w: World, c: Client)
    requires Started(c) && c.config.server == PPAt(w)
    ensures Tracks(w, c, {})
  {
    StartBase(c);
    hide Base, TestsOf;
  }

  lemma ReadyTracks(w: World, c: Client, sent: set<Address>)
    requires Tracks(w, c, sent) && Settled(c) && c.index == |TestsOf(c.config)|
    ensures c.config.behaviorTest ==> c.results.behavior == TrueBehavior(w)
    ensures c.config.filteringTest ==> c.results.filtering == Conclusion(w, c.config.behaviorTest)
  {
    TestsInOrder(c.config);
    BindingFirst(c);
    SettledDecides(c);
    hide TestsOf, Base;
    assert c.config.behaviorTest ==> Passed(c, Behavior3);
  }

  /** In every run behind a NAT with any mapping, when the results are ready: the mapping is named correctly,
      and the filtering is what the NAT does if and only if there is no filter, or the client is not direct
      and the mapping test did not open the filter beforehand. */
  lemma NatIsRecognised(w: World, c: Client, asks: seq<(Time, Tid)>, now: Time, draw: Tid)
    requires WorldOk(w) && Started(c) && c.config.server == PPAt(w)
    requires GetNextMessage(PlayAll(w, Play(c, {}), asks).client, now, draw).1 == ResultsReady
    ensures var r := GetNextMessage(PlayAll(w, Play(c, {}), asks).client, now, draw).0.results;
            && (c.config.behaviorTest ==> r.behavior == TrueBehavior(w))
            && (c.config.filteringTest ==>
                  (r.filtering == TrueFiltering(w) <==>
                     w.filter == AnySource || (!IsDirect(w) && !(c.config.behaviorTest && Opens(w)))))
  {
    hide Started, PlayAll, GetNextMessage, WorldOk, Conclusion, TrueBehavior;
    EndsWithConclusion(w, c, asks, now, draw);
    ConclusionIsTrueIff(w, c.config.behaviorTest);
  }

  lemma EndsWithConclusion(w: World, c: Client, asks: seq<(Time, Tid)>, now: Time, draw: Tid)
    requires WorldOk(w) && Started(c) && c.config.server == PPAt(w)
    requires GetNextMessage(PlayAll(w, Play(c, {}), asks).client, now, draw).1 == ResultsReady
    ensures var r := GetNextMessage(PlayAll(w, Play(c, {}), asks).client, now, draw).0.results;
            && (c.config.behaviorTest ==> r.behavior == TrueBehavior(w))
            && (c.config.filteringTest ==> r.filtering == Conclusion(w, c.config.behaviorTest))
  {
    hide Tracks, WorldOk, Started, PlayAll, GetNextMessage, TestsOf, Base, Conclusion, TrueBehavior;
    StartTracks(w, c);
    PlayTracks(w, Play(c, {}), asks);
    var p := PlayAll(w, Play(c, {}), asks);
    AskTracks(w, p.client, p.sent, now, draw);
    AskConfig(w, c, asks);
    TracksBase(w, p.client, p.sent);
    NextSettles(p.client, now, draw);
    ReadyTracks(w, GetNextMessage(p.client, now, draw).0, p.sent);
  }

  lemma TracksBase(w: World, c: Client, sent: set<Address>)
    requires Tracks(w, c, sent)
    ensures Base(c) && Sendable(c)
  {
  }

  lemma AskConfig(w: World, c: Client, asks: seq<(Time, Tid)>)
    requires WorldOk(w)
    ensures PlayAll(w, Play(c, {}), asks).client.config == c.config
  {
    hide WorldOk;
    PlayConfig(w, Play(c, {}), asks);
  }

  lemma {:induction false} PlayConfig(w: World, s: Play, asks: seq<(Time, Tid)>)
    requires WorldOk(w)
    ensures PlayAll(w, s, asks).client.config == s.client.config
    decreases |asks|
  {
    hide WorldOk, Exchange;
    if asks != [] {
      ExchangeConfig(w, s, asks[0].0, asks[0].1);
      PlayConfig(w, Exchange(w, s, asks[0].0, asks[0].1), asks[1..]);
    }
  }

  lemma ExchangeConfig(w: World, s: Play, now: Time, draw: Tid)
    requires WorldOk(w)
    ensures Exchange(w, s, now, draw).client.config == s.client.config
  {
    hide WorldOk, GetNextMessage, Reply, Admits, TestsOf, TidOf, ReadResponse;
  }

  // ---- Such runs end ----

  /** Requests that can still be sent. */
  function Budget(c: Client): int
  {
    (|TestsOf(c.config)| - c.index) * c.config.maxAttempts - c.sendCount
  }

  /** The client waits only when it is asked too early. */
  lemma {:induction false} WaitsWhenEarly(c: Client, now: Time, draw: Tid)
    ensures GetNextMessage(c, now, draw).1 == StillWaiting ==>
              c.sendCount != 0 && Elapsed(now, c.lastSent) / 1000 < c.config.timeoutSeconds
    decreases Remaining(c)
  {
    hide TestsOf, PreRunCheck, NotifyTimeout, Ready, Remaining, Elapsed;
    if c.index < |TestsOf(c.config)| {
      var d, t := Checked(c), Current(c);
      CheckedKeeps(c);
      Shrinks(c);
      TimeoutKeeps(d, t);
      if t in d.completed || !Ready(d, t) {
        WaitsWhenEarly(Skip(d), now, draw);
      } else if Elapsed(now, d.lastSent) / 1000 < d.config.timeoutSeconds && d.sendCount != 0 {
      } else if d.sendCount >= d.config.maxAttempts {
        WaitsWhenEarly(NotifyTimeout(d, t), now, draw);
      }
    }
  }

  lemma SendingSpends(c: Client, now: Time, draw: Tid)
    requires Base(c) && Sendable(c) && GetNextMessage(c, now, draw).1.Send?
    ensures var d := GetNextMessage(c, now, draw).0;
            0 <= Budget(d) < Budget(c) && d.lastSent == now && d.config == c.config
  {
    hide TestsOf, GetNextMessage, Base;
    NextCounts(c, now, draw);
    NextSettles(c, now, draw);
    var d := GetNextMessage(c, now, draw).0;
    SettledCount(d);
    BaseCount(c);
    var n, m := |TestsOf(c.config)|, c.config.maxAttempts;
    Spend(n, c.index, d.index, m, c.sendCount, d.sendCount);
  }

  lemma BaseCount(c: Client)
    requires Base(c)
    ensures 1 <= c.config.maxAttempts && c.sendCount <= c.config.maxAttempts
  {
  }

  lemma Spend(n: nat, i: nat, j: nat, m: nat, a: nat, b: nat)
    requires i <= j < n && 1 <= m && a <= m && b <= m && (i == j ==> b == a + 1) && (i < j ==> b == 1)
    ensures 0 <= (n - j) * m - b < (n - i) * m - a
  {
    MulMono(1, n - j, m);
    if i < j {
      MulMono(n - j + 1, n - i, m);
      assert (n - j + 1) * m == (n - j) * m + m;
    }
  }

  /** Each ask comes no earlier than the timeout after the last sending. */
  ghost predicate NotEarly(timeout: nat, last: nat, asks: seq<(Time, Tid)>)
    decreases |asks|
  {
    asks != [] ==> Elapsed(asks[0].0, last) / 1000 >= timeout && NotEarly(timeout, asks[0].0, asks[1..])
  }

  lemma ExchangeSpends(w: World, s: Play, now: Time, draw: Tid)
    requires WorldOk(w) && Tracks(w, s.client, s.sent) && GetNextMessage(s.client, now, draw).1.Send?
    ensures var c := Exchange(w, s, now, draw).client;
            0 <= Budget(c) < Budget(s.client) && c.lastSent == now && c.config == s.client.config
  {
    hide TestsOf, Tracks, WorldOk, GetNextMessage, Reply, TidOf, ReadResponse, Admits, Budget;
    TracksBase(w, s.client, s.sent);
    SendingSpends(s.client, now, draw);
    var d := GetNextMessage(s.client, now, draw).0;
    var e := Exchange(w, s, now, draw).client;
    assert e == d.(results := e.results, completed := e.completed);
    SameBudget(d, e);
  }

  lemma SameBudget(c: Client, d: Client)
    requires d.config == c.config && d.index == c.index && d.sendCount == c.sendCount
    ensures Budget(d) == Budget(c)
  {
  }

  /** Asked often enough and not too early, the client has its results: `k` asks after which it says so. */
  lemma {:induction false} RunsEnd(w: World, s: Play, asks: seq<(Time, Tid)>) returns (k: nat)
    requires WorldOk(w) && Tracks(w, s.client, s.sent) && |asks| > Budget(s.client) && asks != []
    requires NotEarly(s.client.config.timeoutSeconds, s.client.lastSent, asks)
    ensures k < |asks|
    ensures GetNextMessage(PlayAll(w, s, asks[..k]).client, asks[k].0, asks[k].1).1 == ResultsReady
    decreases |asks|
  {
    hide TestsOf, Tracks, WorldOk, GetNextMessage, Exchange, Budget, Elapsed;
    var (now, draw) := asks[0];
    var o := GetNextMessage(s.client, now, draw).1;
    WaitsWhenEarly(s.client, now, draw);
    if o.Send? {
      var p := Exchange(w, s, now, draw);
      ExchangeSpends(w, s, now, draw);
      ExchangeTracks(w, s, now, draw);
      var n := RunsEnd(w, p, asks[1..]);
      k := n + 1;
      assert asks[..k][1..] == asks[1..][..n] && asks[..k][0] == asks[0];
    } else {
      k := 0;
    }
  }

  // ---- The wrong verdict is reached ----

  lemma {:induction false} InstantIsNeverEarly(last: nat, asks: seq<(Time, Tid)>)
    ensures NotEarly(0, last, asks)
    decreases |asks|
  {
    hide Elapsed;
    if asks != [] {
      InstantIsNeverEarly(asks[0].0, asks[1..]);
    }
  }

  /** A client that runs all tests without waiting has its results after at most five requests. */
  lemma EagerRun(w: World, draw: Tid) returns (c: Client, asks: seq<(Time, Tid)>)
    requires WorldOk(w) && PPAt(w) == HOST1
    ensures Started(c) && c.config.server == HOST1 && c.config.behaviorTest && c.config.filteringTest
    ensures GetNextMessage(PlayAll(w, Play(c, {}), asks).client, 0, draw).1 == ResultsReady
  {
    hide WorldOk, Tracks, PlayAll, GetNextMessage, NotEarly, PPAt;
    c := Initialize(HOST1, true, 0, 1, true, true);
    assert Started(c);
    StartTracks(w, c);
    var all := seq(6, _ => (0, draw));
    InstantIsNeverEarly(c.lastSent, all);
    assert Budget(c) == 5;
    var k := RunsEnd(w, Play(c, {}), all);
    asks := all[..k];
  }

  /** Behind a NAT that keeps one public address and lets in only hosts that were written to, a client that
      runs both tests ends up calling the filter open. */
  lemma FilterIsMissed(server: Server, local: Address, draw: Tid) returns (w: World, c: Client, asks: seq<(Time, Tid)>)
    requires server.sockets == FourSockets() && server.auth.None?
    requires AddressOk(local) && local != Public(false, false, HOST1)
    ensures WorldOk(w) && w.server == server && w.local == local && Started(c) && c.config.server == PPAt(w)
    ensures GetNextMessage(PlayAll(w, Play(c, {}), asks).client, 0, draw).1 == ResultsReady
    ensures var r := GetNextMessage(PlayAll(w, Play(c, {}), asks).client, 0, draw).0.results;
            r.filtering == EndpointIndependentFiltering && TrueFiltering(w) == AddressDependentFiltering
  {
    hide WorldOk, Started, PlayAll, GetNextMessage, FourSockets, Public, Independent, Opens, PPAt;
    w := KindsExist(server, local, SameHost, false, false);
    Differences(w);
    c, asks := EagerRun(w, draw);
    ClassesAreNamed(w);
    EndsWithConclusion(w, c, asks, 0, draw);
  }
}

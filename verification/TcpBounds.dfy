/** With a poller that fails only for good reason and reports only registered sockets, as CPoll does,
    the TCP thread never has more connections than it may. */
module TcpBounds {
  import opened Options
  import opened Chains
  import opened Connections
  import opened Tcp
  import opened TcpSafety
  import opened TcpRuns

  predicate IsEar(listen: seq<int>, s: int)
  {
    s in listen && s != NO_SOCKET
  }

  ghost predicate AllDifferent(listen: seq<int>)
  {
    forall i, j :: 0 <= i < j < |listen| ==> listen[i] == NO_SOCKET || listen[i] != listen[j]
  }

  ghost predicate ConfigOk(cfg: Config)
  {
    |cfg.listen| <= 4 && cfg.pipe >= 0 && cfg.pipe !in cfg.listen && AllDifferent(cfg.listen)
  }

  predicate IsUser(t: Thread, s: int) { s in t.first || s in t.second }

  predicate IsOpen(cfg: Config, t: Thread, s: int)
  {
    (t.listening && IsEar(cfg.listen, s)) || s == cfg.pipe || IsUser(t, s)
  }

  /** Exactly the open sockets are registered, the listening ones only while listening. */
  ghost predicate Registry(cfg: Config, t: Thread)
  {
    && (forall s :: s in t.registered <==> IsOpen(cfg, t, s))
    && (forall s :: IsUser(t, s) ==> s != cfg.pipe && s !in cfg.listen && s != NO_SOCKET)
  }

  ghost predicate Bounded(cfg: Config, t: Thread)
  {
    Registry(cfg, t) && |t.first| + |t.second| <= cfg.max
  }

  // ---- Listening exactly while there is room ----

  lemma EarsRest(listen: seq<int>, s: int)
    requires listen != [] && AllDifferent(listen)
    ensures IsEar(listen, s) <==> IsEar(listen[1..], s) || (s == listen[0] && s != NO_SOCKET)
    ensures !IsEar(listen[1..], listen[0]) && AllDifferent(listen[1..])
  {
  }

  lemma {:induction false} ListenOn(t: Thread, listen: seq<int>)
    requires AllDifferent(listen) && forall s :: IsEar(listen, s) ==> s !in t.registered
    ensures var u := SetListenFrom(t, listen, true, Exact);
            u.listening && forall s :: s in u.registered <==> s in t.registered || IsEar(listen, s)
    decreases |listen|
  {
    if listen != [] {
      hide IsEar, AllDifferent;
      forall s ensures IsEar(listen, s) <==> IsEar(listen[1..], s) || (s == listen[0] && s != NO_SOCKET) {
        EarsRest(listen, s);
      }
      EarsRest(listen, listen[0]);
      var u := if listen[0] == NO_SOCKET then t else t.(registered := t.registered + {listen[0]});
      ListenOn(u, listen[1..]);
    }
  }

  lemma {:induction false} ListenOff(t: Thread, listen: seq<int>)
    requires AllDifferent(listen) && forall s :: IsEar(listen, s) ==> s in t.registered
    ensures var u := SetListenFrom(t, listen, false, Exact);
            !u.listening && forall s :: s in u.registered <==> s in t.registered && !IsEar(listen, s)
    decreases |listen|
  {
    if listen != [] {
      hide IsEar, AllDifferent;
      forall s ensures IsEar(listen, s) <==> IsEar(listen[1..], s) || (s == listen[0] && s != NO_SOCKET) {
        EarsRest(listen, s);
      }
      EarsRest(listen, listen[0]);
      var u := if listen[0] == NO_SOCKET then t else t.(registered := t.registered - {listen[0]});
      ListenOff(u, listen[1..]);
    }
  }

  lemma ListenedExactly(cfg: Config, t: Thread)
    requires ConfigOk(cfg) && Bounded(cfg, t)
    ensures Bounded(cfg, Listened(cfg, t, Exact)) && Listened(cfg, t, Exact).listening == !AtMax(cfg, t)
  {
    hide SetListenFrom, AtMax;
    var u := Listened(cfg, t, Exact);
    ListenedFrame(cfg, t, Exact);
    if AtMax(cfg, t) && t.listening {
      ListenOff(t, cfg.listen);
    } else if !AtMax(cfg, t) && !t.listening {
      ListenOn(t, cfg.listen);
    }
    forall s ensures s in u.registered <==> IsOpen(cfg, u, s) {
      assert s in t.registered <==> IsOpen(cfg, t, s);
      assert IsUser(u, s) <==> IsUser(t, s);
    }
    assert forall s :: IsUser(u, s) <==> IsUser(t, s);
  }

  // ---- Closing and serving ----

  /** Closing takes a connection's socket out of the only table it is in. */
  lemma CloseUser(cfg: Config, t: Thread, id: nat)
    requires Inv(cfg, t, NONE) && Live(t, id)
    ensures var u := Close(t, id);
            && (forall s :: IsUser(u, s) <==> IsUser(t, s) && s != t.conns[id].sock)
            && |u.first| + |u.second| + 1 == |t.first| + |t.second|
  {
  }

  lemma CloseBounded(cfg: Config, t: Thread, id: nat)
    requires Inv(cfg, t, NONE) && Live(t, id) && Registry(cfg, t)
    ensures Registry(cfg, Close(t, id))
    ensures |Close(t, id).first| + |Close(t, id).second| + 1 == |t.first| + |t.second|
  {
    CloseUser(cfg, t, id);
    assert IsUser(t, t.conns[id].sock) by {
      LiveIsOk(cfg, t, id);
    }
    hide Inv, Close;
    CloseFrame(t, id);
    DropUser(cfg, t, Close(t, id), t.conns[id].sock);
  }

  lemma CloseFrame(t: Thread, id: nat)
    ensures Close(t, id).registered == t.registered - {At(t, id).sock} && Close(t, id).listening == t.listening
  {
  }

  lemma DropUser(cfg: Config, t: Thread, u: Thread, user: int)
    requires Registry(cfg, t) && IsUser(t, user) && (forall s :: IsUser(u, s) <==> IsUser(t, s) && s != user)
    requires u.registered == t.registered - {user} && u.listening == t.listening
    ensures Registry(cfg, u)
  {
  }

  lemma EarListens(listen: seq<int>, s: int)
    requires IsEar(listen, s)
    ensures s in listen
  {
  }

  lemma SettleBounded(cfg: Config, t: Thread, id: nat, c: Connection, kept: bool)
    requires Inv(cfg, t, NONE) && Live(t, id) && Registry(cfg, t) && Later(t.conns[id], c)
    ensures Registry(cfg, Settle(t, id, c, kept))
    ensures |Settle(t, id, c, kept).first| + |Settle(t, id, c, kept).second| <= |t.first| + |t.second|
  {
    hide Inv, Registry;
    var u := Settle(t, id, c, kept);
    if kept {
      SameRegistry(cfg, t, u);
    } else {
      CloseBounded(cfg, t, id);
      SameRegistry(cfg, Close(t, id), u);
    }
  }

  lemma SameRegistry(cfg: Config, t: Thread, u: Thread)
    requires Registry(cfg, t) && u.registered == t.registered && u.first == t.first && u.second == t.second
    requires u.listening == t.listening
    ensures Registry(cfg, u)
  {
    hide IsEar;
    assert forall s :: IsUser(u, s) <==> IsUser(t, s);
    assert forall s :: IsOpen(cfg, u, s) <==> IsOpen(cfg, t, s);
  }

  lemma ServeBounded(cfg: Config, t: Thread, id: nat, io: Io)
    requires Inv(cfg, t, NONE) && Live(t, id) && Bounded(cfg, t)
    ensures Bounded(cfg, Serve(cfg, t, id, Exact, io))
  {
    hide Inv, ConnectionOk, Handle, Settle, Later, Registry;
    LiveIsOk(cfg, t, id);
    HandleOk(cfg.service, t.conns[id], IoOf(t, Exact, t.conns[id].sock, io));
    var (c, kept) := Handle(cfg.service, t.conns[id], IoOf(t, Exact, t.conns[id].sock, io));
    SettleBounded(cfg, t, id, c, kept);
  }

  // ---- Accepting ----

  lemma UnusedIsUnregistered(cfg: Config, t: Thread, a: Acceptance)
    requires Registry(cfg, t) && Unused(cfg, t, a) && a.Accepted?
    ensures a.sock !in t.registered && a.sock != NO_SOCKET && a.sock != cfg.pipe && a.sock !in cfg.listen
  {
  }

  /** A connection that never reached a table leaves no trace in the registry. */
  lemma DropHeld(cfg: Config, t: Thread, u: Thread, s: int)
    requires Registry(cfg, t) && s !in t.registered && u.registered == t.registered - {s}
    requires u.first == t.first && u.second == t.second && u.listening == t.listening
    ensures Registry(cfg, u)
  {
    hide Registry;
    assert u.registered == t.registered;
    SameRegistry(cfg, t, u);
  }

  lemma AddUser(cfg: Config, t: Thread, u: Thread, user: int)
    requires Registry(cfg, t) && user != cfg.pipe && user !in cfg.listen && user != NO_SOCKET
    requires (forall s :: IsUser(u, s) <==> IsUser(t, s) || s == user)
    requires u.registered == t.registered + {user} && u.listening == t.listening
    ensures Registry(cfg, u)
  {
  }

  lemma EnterBounded(cfg: Config, t: Thread, u: Thread, id: nat, s: int)
    requires Registry(cfg, t) && |t.first| + |t.second| < cfg.max && s !in t.first && s !in t.second
    requires s != cfg.pipe && s !in cfg.listen && s != NO_SOCKET && id < |u.conns| && u.conns[id].sock == s
    requires u == t.(conns := u.conns, free := u.free, registered := t.registered + {s})
    ensures Bounded(cfg, Enter(cfg, u, id).0)
  {
    hide Registry, IsUser;
    var v := Enter(cfg, u, id).0;
    assert v.registered == u.registered && v.listening == u.listening;
    UsersAfterInsert(u, v, s, id);
    assert forall r :: IsUser(u, r) <==> IsUser(t, r) by {
      SameUsers(t, u);
    }
    AddUser(cfg, t, v, s);
  }

  lemma SameUsers(t: Thread, u: Thread)
    requires u.first == t.first && u.second == t.second
    ensures forall r :: IsUser(u, r) <==> IsUser(t, r)
  {
  }

  lemma UsersAfterInsert(u: Thread, v: Thread, s: int, id: nat)
    requires u.newIsFirst ==> v.first == u.first[s := id] && v.second == u.second
    requires !u.newIsFirst ==> v.second == u.second[s := id] && v.first == u.first
    ensures forall r :: IsUser(v, r) <==> IsUser(u, r) || r == s
  {
  }

  lemma AcceptBounded(cfg: Config, t: Thread, a: Acceptance)
    requires Inv(cfg, t, NONE) && Registry(cfg, t) && Unused(cfg, t, a) && |t.first| + |t.second| < cfg.max
    ensures Bounded(cfg, AcceptConnection(cfg, t, a, Exact).0)
  {
    hide Inv, GetConnection, Registry, Enter, Close;
    if a.Accepted? {
      UnusedIsUnregistered(cfg, t, a);
      GetKeeps(cfg, t, a.sock, a.peer, a.memory);
      var (u, got) := GetConnection(t, a.sock, a.peer, a.memory);
      if got.None? {
        SameRegistry(cfg, t, u);
      } else if a.nonBlocking {
        EnterBounded(cfg, t, u.(registered := u.registered + {a.sock}), got.value, a.sock);
      } else {
        CloseHeld(cfg, t, u, got.value, a.sock);
      }
    }
  }

  lemma CloseHeld(cfg: Config, t: Thread, u: Thread, id: nat, s: int)
    requires Registry(cfg, t) && s !in t.registered && Holds(u, id) && u.conns[id].sock == s
    requires u == t.(conns := u.conns, free := u.free)
    ensures Registry(cfg, Close(u, id)) && Close(u, id).first == t.first && Close(u, id).second == t.second
  {
    hide Registry;
    assert t.first - {s} == t.first && t.second - {s} == t.second;
    DropHeld(cfg, t, Close(u, id), s);
  }

  // ---- Turns ----

  /** The poller is exact and reports only what is registered. */
  ghost predicate Faithful(cfg: Config, t: Thread, i: Input)
  {
    i.poller.Exact? && (i.event.Some? ==> i.event.value in Listened(cfg, t, Exact).registered)
  }

  /** A listening socket is registered only while there is room for another connection. */
  lemma EarMeansRoom(cfg: Config, t: Thread, s: int)
    requires ConfigOk(cfg) && Bounded(cfg, t) && IsEar(cfg.listen, s) && s in Listened(cfg, t, Exact).registered
    ensures |t.first| + |t.second| < cfg.max
  {
    hide Listened, IsEar;
    ListenedExactly(cfg, t);
    EarListens(cfg.listen, s);
    assert IsOpen(cfg, Listened(cfg, t, Exact), s);
  }

  lemma OnEventBounded(cfg: Config, t: Thread, s: int, i: Input)
    requires Inv(cfg, t, NONE) && Bounded(cfg, t) && Unused(cfg, t, i.acceptance) && i.poller.Exact?
    requires IsEar(cfg.listen, s) ==> |t.first| + |t.second| < cfg.max
    ensures Bounded(cfg, OnEvent(cfg, t, s, i))
  {
    hide Inv, AcceptConnection, Serve, FindConnection, Unused, Registry;
    if s != NO_SOCKET && s in cfg.listen {
      AcceptBounded(cfg, t, i.acceptance);
      AcceptKeeps(cfg, t, i.acceptance, Exact);
      var (u, got) := AcceptConnection(cfg, t, i.acceptance, Exact);
      if got.Some? {
        ServeBounded(cfg, u, got.value, i.io);
      }
    } else if FindConnection(t, s).Some? {
      FoundIsLive(cfg, t, s);
      ServeBounded(cfg, t, FindConnection(t, s).value, i.io);
    }
  }

  lemma HandledBounded(cfg: Config, t: Thread, i: Input)
    requires ConfigOk(cfg) && Inv(cfg, t, NONE) && Bounded(cfg, t) && Unused(cfg, t, i.acceptance)
    requires Faithful(cfg, t, i)
    ensures Bounded(cfg, Handled(cfg, t, i))
  {
    hide Inv, OnEvent, Listened, Registry, IsEar;
    ListenedExactly(cfg, t);
    ListenedFrame(cfg, t, Exact);
    ListenKeeps(cfg, t, Exact);
    if i.event.Some? {
      if IsEar(cfg.listen, i.event.value) {
        EarMeansRoom(cfg, t, i.event.value);
      }
      OnEventBounded(cfg, Listened(cfg, t, Exact), i.event.value, i);
    }
  }

  lemma {:induction false} CloseAllBounded(cfg: Config, t: Thread, inOld: bool, order: seq<int>)
    requires Inv(cfg, t, NONE) && Bounded(cfg, t) && Lists(order, TableOf(t, inOld))
    ensures Bounded(cfg, CloseAll(t, inOld, order))
    decreases |order|
  {
    hide Inv, Close, Lists, Registry;
    if order != [] {
      ListsRest(order, TableOf(t, inOld));
      CloseOne(cfg, t, inOld, order[0]);
      TableIsLive(cfg, t, inOld, order[0]);
      CloseBounded(cfg, t, TableOf(t, inOld)[order[0]]);
      CloseAllBounded(cfg, Close(t, TableOf(t, inOld)[order[0]]), inOld, order[1..]);
    }
  }

  lemma TurnBounded(cfg: Config, t: Thread, i: Input)
    requires ConfigOk(cfg) && Inv(cfg, t, NONE) && Bounded(cfg, t) && Possible(cfg, t, i) && Faithful(cfg, t, i)
    ensures Bounded(cfg, Turn(cfg, t, i))
  {
    hide Inv, Handled, CloseAll, Unused, Registry, Lists, Faithful;
    HandledKeeps(cfg, t, i);
    HandledBounded(cfg, t, i);
    var u := Handled(cfg, t, i);
    if i.now - u.lastSweep >= SWEEP_SECONDS {
      CloseAllBounded(cfg, u, true, i.order);
      SameRegistry(cfg, CloseAll(u, true, i.order), Turn(cfg, t, i));
    }
  }

  ghost predicate FaithfulRun(cfg: Config, t: Thread, inputs: seq<Input>)
    decreases |inputs|
  {
    inputs == [] || (Faithful(cfg, t, inputs[0]) && FaithfulRun(cfg, Turn(cfg, t, inputs[0]), inputs[1..]))
  }

  lemma {:induction false} RunBounded(cfg: Config, t: Thread, inputs: seq<Input>)
    requires ConfigOk(cfg) && Inv(cfg, t, NONE) && Bounded(cfg, t) && PossibleRun(cfg, t, inputs)
    requires FaithfulRun(cfg, t, inputs)
    ensures Bounded(cfg, Run(cfg, t, inputs))
    decreases |inputs|
  {
    hide Inv, Bounded, Possible, Faithful, Turn, ConfigOk;
    if inputs != [] {
      TurnKeeps(cfg, t, inputs[0]);
      TurnBounded(cfg, t, inputs[0]);
      RunBounded(cfg, Turn(cfg, t, inputs[0]), inputs[1..]);
    }
  }

  /** In every run over such a poller there are at most `max` connections, and exactly the open sockets
      are registered. */
  lemma ConnectionsAreBounded(cfg: Config, now: int, inputs: seq<Input>)
    requires ConfigOk(cfg) && PossibleRun(cfg, Start(cfg, now), inputs) && FaithfulRun(cfg, Start(cfg, now), inputs)
    ensures var t := Run(cfg, Start(cfg, now), inputs); Registry(cfg, t) && |t.first| + |t.second| <= cfg.max
  {
    StartOk(cfg, now);
    assert Bounded(cfg, Start(cfg, now)) by {
      hide Inv;
    }
    hide Inv, Start, PossibleRun, FaithfulRun, Run, Registry, ConfigOk;
    RunBounded(cfg, Start(cfg, now), inputs);
  }
}

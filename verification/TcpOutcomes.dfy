/** What a turn of the TCP thread over CPoll does to a connection: when its peer is answered, and exactly when it is
    given up. */
module TcpOutcomes {
  import opened Bits
  import opened Options
  import opened Incremental
  import opened Connections
  import opened Outcomes
  import opened Tcp
  import opened TcpSafety
  import opened TcpRuns
  import opened TcpBounds
  import opened TcpOverPoll
  import Poll

  // ---- One connection and the others ----

  ghost predicate Untouched(t: Thread, u: Thread, id: nat)
  {
    id < |t.conns| && id < |u.conns| && u.conns[id] == t.conns[id]
  }

  /** Handled as an event on a registered socket, and released if not kept. */
  ghost predicate HandledAs(cfg: Config, c: Connection, io: Io, d: Connection)
  {
    var (e, kept) := Handle(cfg.service, c, io.(toWrite := true, toRead := true));
    d == if kept then e else e.(sock := NO_SOCKET)
  }

  lemma ServeDoes(cfg: Config, t: Thread, id: nat, io: Io)
    requires Live(t, id) && t.conns[id].sock in t.registered
    ensures var u := Serve(cfg, t, id, Exact, io);
            && |u.conns| == |t.conns| && HandledAs(cfg, t.conns[id], io, u.conns[id])
            && forall j: nat :: j < |t.conns| && j != id ==> Untouched(t, u, j)
  {
    hide Handle;
  }

  lemma GetLeaves(cfg: Config, t: Thread, s: int, peer: Peer, memory: nat, j: nat)
    requires Inv(cfg, t, NONE) && Live(t, j)
    ensures var (u, got) := GetConnection(t, s, peer, memory); Untouched(t, u, j) && got != Some(j)
  {
    hide Grow, ConnectionOk, TableOk;
    GrowKeeps(cfg, t, Min(memory, GROWTH));
    var g := if t.free == [] then Grow(t, Min(memory, GROWTH)) else t;
    assert t.conns[j] == g.conns[..|t.conns|][j];
    if g.free != [] {
      assert g.free[0] in g.free;
      assert g.conns[g.free[0]].sock == NO_SOCKET;
    }
  }

  lemma AcceptLeavesOthers(cfg: Config, t: Thread, a: Acceptance, j: nat)
    requires Inv(cfg, t, NONE) && Live(t, j)
    ensures var (u, got) := AcceptConnection(cfg, t, a, Exact); Untouched(t, u, j) && got != Some(j)
  {
    hide Inv, GetConnection, Enter, Close;
    if a.Accepted? {
      GetLeaves(cfg, t, a.sock, a.peer, a.memory, j);
      var (u, got) := GetConnection(t, a.sock, a.peer, a.memory);
      if got.Some? {
        CloseLeaves(u, got.value, j);
        EnterLeaves(cfg, u.(registered := u.registered + {a.sock}), got.value, j);
      }
    }
  }

  lemma CloseLeaves(t: Thread, id: nat, j: nat)
    requires j < |t.conns| && j != id
    ensures Untouched(t, Close(t, id), j)
  {
  }

  lemma EnterLeaves(cfg: Config, t: Thread, id: nat, j: nat)
    requires j < |t.conns| && j != id
    ensures var (u, got) := Enter(cfg, t, id); Untouched(t, u, j) && got != Some(j)
  {
    hide Close;
    CloseLeaves(Put(t, id, At(t, id).(table := TableId(t))), id, j);
  }

  lemma ServeLeavesOthers(cfg: Config, t: Thread, id: nat, io: Io, j: nat)
    requires j < |t.conns| && j != id
    ensures Untouched(t, Serve(cfg, t, id, Exact, io), j)
  {
    hide Close, Handle;
    var c := Handle(cfg.service, At(t, id), IoOf(t, Exact, At(t, id).sock, io)).0;
    CloseLeaves(Put(t, id, c), id, j);
  }

  // ---- Handling an event ----

  /** A live connection is found by its socket. */
  lemma FoundIs(cfg: Config, t: Thread, id: nat)
    requires Inv(cfg, t, NONE) && Live(t, id)
    ensures FindConnection(t, t.conns[id].sock) == Some(id)
    ensures IsUser(t, t.conns[id].sock)
  {
    hide ConnectionOk, PoolOk, TableOk;
    LiveIsOk(cfg, t, id);
    assert Seated(t, id);
  }

  lemma UserIsNoEar(cfg: Config, t: Thread, s: int)
    requires Registry(cfg, t) && IsUser(t, s)
    ensures s !in cfg.listen && s in t.registered
  {
    hide IsEar;
    assert IsOpen(cfg, t, s);
  }

  lemma ListenedIs(cfg: Config, t: Thread)
    requires ConfigOk(cfg) && Inv(cfg, t, NONE) && Bounded(cfg, t)
    ensures var u := Listened(cfg, t, Exact);
            Inv(cfg, u, NONE) && Registry(cfg, u) && u.conns == t.conns && NewTable(u) == NewTable(t)
            && OldTable(u) == OldTable(t) && u.lastSweep == t.lastSweep
  {
    hide Listened, Inv, Registry;
    ListenKeeps(cfg, t, Exact);
    ListenedFrame(cfg, t, Exact);
    ListenedExactly(cfg, t);
  }

  /** Only the connection whose socket is reported is touched, and it is handled. */
  lemma HandledDoes(cfg: Config, t: Thread, i: Input, id: nat)
    requires ConfigOk(cfg) && Inv(cfg, t, NONE) && Bounded(cfg, t) && Live(t, id)
    requires i.poller.Exact? && Unused(cfg, t, i.acceptance)
    ensures var u := Handled(cfg, t, i);
            && id < |u.conns|
            && (if i.event == Some(t.conns[id].sock) then HandledAs(cfg, t.conns[id], i.io, u.conns[id])
                else Untouched(t, u, id))
  {
    hide Inv, Listened, Serve, FindConnection, AcceptConnection, HandledAs, Registry, ConfigOk, IsUser, Unused;
    ListenedIs(cfg, t);
    assert i.poller == Exact;
    var u := Listened(cfg, t, Exact);
    FoundIs(cfg, u, id);
    UserIsNoEar(cfg, u, t.conns[id].sock);
    if i.event.Some? {
      var s := i.event.value;
      if s != NO_SOCKET && s in cfg.listen {
        AcceptedLeaves(cfg, u, i, id);
        var (v, got) := AcceptConnection(cfg, u, i.acceptance, Exact);
        assert Handled(cfg, t, i) == if got.None? then v else Serve(cfg, v, got.value, Exact, i.io);
      } else if FindConnection(u, s).Some? {
        FoundIsLive(cfg, u, s);
        var j := FindConnection(u, s).value;
        FoundIs(cfg, u, j);
        UserIsNoEar(cfg, u, u.conns[j].sock);
        ServeDoes(cfg, u, j, i.io);
        var v := Serve(cfg, u, j, Exact, i.io);
        assert Handled(cfg, t, i) == v;
        if j == id {
          assert HandledAs(cfg, t.conns[id], i.io, v.conns[id]);
        } else {
          assert Untouched(u, v, id);
          assert s != t.conns[id].sock;
        }
      }
    }
  }

  lemma AcceptedLeaves(cfg: Config, t: Thread, i: Input, id: nat)
    requires Inv(cfg, t, NONE) && Live(t, id)
    ensures var (u, got) := AcceptConnection(cfg, t, i.acceptance, Exact);
            && Untouched(t, u, id)
            && (got.Some? ==> Untouched(t, Serve(cfg, u, got.value, Exact, i.io), id))
  {
    hide Inv, AcceptConnection, Serve;
    AcceptLeavesOthers(cfg, t, i.acceptance, id);
    var (u, got) := AcceptConnection(cfg, t, i.acceptance, Exact);
    if got.Some? {
      ServeLeavesOthers(cfg, u, got.value, i.io, id);
    }
  }

  // ---- Sweeping ----

  lemma {:induction false} CloseAllFields(t: Thread, inOld: bool, order: seq<int>, id: nat)
    requires id < |t.conns|
    ensures var u := CloseAll(t, inOld, order);
            id < |u.conns| && (u.conns[id] == t.conns[id] || u.conns[id] == t.conns[id].(sock := NO_SOCKET))
    decreases |order|
  {
    if order != [] {
      var m := TableOf(t, inOld);
      CloseAllFields(if order[0] in m then Close(t, m[order[0]]) else t, inOld, order[1..], id);
    }
  }

  /** A sweep releases what is in the old table and touches nothing else. */
  lemma SweepDoes(cfg: Config, t: Thread, now: int, later: int, order: seq<int>, id: nat)
    requires Inv(cfg, t, NONE) && Live(t, id) && SweepsAll(t, now, order)
    ensures var u := Sweep(t, now, later, order);
            && id < |u.conns|
            && u.conns[id] == if now - t.lastSweep >= SWEEP_SECONDS && t.conns[id].sock in OldTable(t)
                              then t.conns[id].(sock := NO_SOCKET) else t.conns[id]
  {
    hide CloseAll, Lists, Inv;
    if now - t.lastSweep >= SWEEP_SECONDS {
      CloseAllFields(t, true, order, id);
      CloseAllEmpties(cfg, t, true, order);
      EmptiedIs(cfg, t, CloseAll(t, true, order), id);
    }
  }

  lemma EmptiedIs(cfg: Config, t: Thread, u: Thread, id: nat)
    requires Inv(cfg, t, NONE) && Live(t, id) && Inv(cfg, u, NONE) && id < |u.conns|
    requires u.conns[id] == t.conns[id] || u.conns[id] == t.conns[id].(sock := NO_SOCKET)
    requires u.newIsFirst == t.newIsFirst && OldTable(u) == map[] && NewTable(u) == NewTable(t)
    ensures u.conns[id] == if t.conns[id].sock in OldTable(t) then t.conns[id].(sock := NO_SOCKET) else t.conns[id]
  {
    hide ConnectionOk, PoolOk;
    LiveIsOk(cfg, t, id);
    var s := t.conns[id].sock;
    if s in NewTable(t) {
      assert Owns(u, NewTable(u), if u.newIsFirst then 1 else 2, s, NONE);
      assert NewTable(t)[s] == id;
    } else if u.conns[id] == t.conns[id] {
      LiveIsOk(cfg, u, id);
    }
  }

  // ---- Turns over CPoll ----

  ghost predicate Ready(cfg: Config, x: Joint, s: Surroundings)
  {
    && ConfigOk(cfg) && Inv(cfg, x.t, NONE) && Bounded(cfg, x.t) && Joined(cfg, x) && Plausible(cfg, x, s)
  }

  /** CPoll reports an event on the connection. */
  ghost predicate Reported(cfg: Config, x: Joint, s: Surroundings, id: nat)
    requires Live(x.t, id)
  {
    WaitJoint(cfg, x, s).1 == Some(x.t.conns[id].sock)
  }

  ghost predicate Due(x: Joint, s: Surroundings, id: nat)
    requires Live(x.t, id)
  {
    s.now - x.t.lastSweep >= 60 && x.t.conns[id].sock in OldTable(x.t)
  }

  /** The connection before any sweep. */
  ghost predicate Becomes(cfg: Config, x: Joint, s: Surroundings, id: nat, d: Connection)
    requires Live(x.t, id)
  {
    if Reported(cfg, x, s, id) then HandledAs(cfg, x.t.conns[id], s.io, d) else d == x.t.conns[id]
  }

  lemma TurnDoes(cfg: Config, x: Joint, s: Surroundings, id: nat)
    requires Ready(cfg, x, s) && Live(x.t, id)
    ensures var u := TurnJoint(cfg, x, s).t;
            && id < |u.conns|
            && exists d :: Becomes(cfg, x, s, id, d)
                           && u.conns[id] == if Due(x, s, id) then d.(sock := NO_SOCKET) else d
  {
    hide Inv, ConfigOk, Bounded, Joined, Handled, HandledAs, Sweep, Listened, WaitJoint, TurnJoint, SweepsAll, Faithful;
    hide HandleJoint;
    var i := InputOf(cfg, x, s);
    TurnJoined(cfg, x, s);
    HandleJoined(cfg, x, s);
    HandledDoes(cfg, x.t, i, id);
    HandledKeeps(cfg, x.t, i);
    HandledClock(cfg, x.t, i);
    var h := Handled(cfg, x.t, i);
    HandledSocket(cfg, x.t, i, id);
    var d := h.conns[id];
    assert Becomes(cfg, x, s, id, d);
    if d.sock != NO_SOCKET {
      SweepDoes(cfg, h, i.now, i.later, i.order, id);
      SameTable(cfg, x.t, h, id);
    } else {
      SweepLeavesFree(h, i.now, i.later, i.order, id);
    }
  }

  lemma SweepLeavesFree(t: Thread, now: int, later: int, order: seq<int>, id: nat)
    requires id < |t.conns| && t.conns[id].sock == NO_SOCKET
    ensures var u := Sweep(t, now, later, order); id < |u.conns| && u.conns[id] == t.conns[id]
  {
    hide CloseAll;
    CloseAllFields(t, true, order, id);
  }

  /** No sweep in between. */
  predicate SameClock(t: Thread, u: Thread)
  {
    u.lastSweep == t.lastSweep && u.newIsFirst == t.newIsFirst
  }

  lemma HandledClock(cfg: Config, t: Thread, i: Input)
    ensures SameClock(t, Handled(cfg, t, i))
  {
    hide Serve, AcceptConnection, Listened, FindConnection;
    ListenedFrame(cfg, t, i.poller);
    if i.event.Some? {
      var u, s := Listened(cfg, t, i.poller), i.event.value;
      if s != NO_SOCKET && s in cfg.listen {
        AcceptClock(cfg, u, i.acceptance, i.poller);
        var (v, got) := AcceptConnection(cfg, u, i.acceptance, i.poller);
        if got.Some? {
          ServeClock(cfg, v, got.value, i.poller, i.io);
        }
      } else if FindConnection(u, s).Some? {
        ServeClock(cfg, u, FindConnection(u, s).value, i.poller, i.io);
      }
    }
  }

  lemma ServeClock(cfg: Config, t: Thread, id: nat, p: Tcp.Poller, io: Io)
    ensures SameClock(t, Serve(cfg, t, id, p, io))
  {
    hide Handle;
  }

  lemma AcceptClock(cfg: Config, t: Thread, a: Acceptance, p: Tcp.Poller)
    ensures SameClock(t, AcceptConnection(cfg, t, a, p).0)
  {
    hide GetConnection, Enter, Close;
    GrowClock(t, a);
    if a.Accepted? {
      var (u, got) := GetConnection(t, a.sock, a.peer, a.memory);
      if got.Some? {
        CloseClock(u, got.value);
        EnterClock(cfg, u.(registered := u.registered + {a.sock}), got.value);
      }
    }
  }

  lemma CloseClock(t: Thread, id: nat)
    ensures SameClock(t, Close(t, id))
  {
  }

  lemma EnterClock(cfg: Config, t: Thread, id: nat)
    ensures SameClock(t, Enter(cfg, t, id).0)
  {
    hide Close;
    CloseClock(Put(t, id, At(t, id).(table := TableId(t))), id);
  }

  lemma GrowClock(t: Thread, a: Acceptance)
    ensures a.Accepted? ==> SameClock(t, GetConnection(t, a.sock, a.peer, a.memory).0)
  {
    hide Grow;
    if a.Accepted? {
      GrowFrame(t, Min(a.memory, GROWTH));
    }
  }

  lemma {:induction false} GrowFrame(t: Thread, n: nat)
    ensures var u := Grow(t, n);
            u.lastSweep == t.lastSweep && u.newIsFirst == t.newIsFirst && u.first == t.first && u.second == t.second
    decreases n
  {
    if n > 0 {
      GrowFrame(t.(conns := t.conns + [BLANK], free := [|t.conns|] + t.free), n - 1);
    }
  }

  /** A connection that is kept has its socket, in the table it was in. */
  lemma HandledSocket(cfg: Config, t: Thread, i: Input, id: nat)
    requires Inv(cfg, t, NONE) && Live(t, id) && Unused(cfg, t, i.acceptance)
    ensures var u := Handled(cfg, t, i);
            id < |u.conns| && (u.conns[id].sock == NO_SOCKET || Later(t.conns[id], u.conns[id]))
  {
    hide Inv, Handled, Later;
    HandledEvolves(cfg, t, i);
  }

  lemma SameTable(cfg: Config, t: Thread, u: Thread, id: nat)
    requires Inv(cfg, t, NONE) && Inv(cfg, u, NONE) && Live(t, id) && Live(u, id) && Later(t.conns[id], u.conns[id])
    requires u.newIsFirst == t.newIsFirst
    ensures u.conns[id].sock in OldTable(u) <==> t.conns[id].sock in OldTable(t)
  {
    hide Inv;
    LiveIsSound(cfg, t, id);
    LiveIsSound(cfg, u, id);
  }

  /** A turn releases a connection if and only if its event is reported and it is given up, or a sweep is due and it
      has been through one before. */
  lemma ReleasedIff(cfg: Config, x: Joint, s: Surroundings, id: nat)
    requires Ready(cfg, x, s) && Live(x.t, id)
    ensures id < |TurnJoint(cfg, x, s).t.conns|
    ensures TurnJoint(cfg, x, s).t.conns[id].sock == NO_SOCKET <==>
              || (Reported(cfg, x, s, id)
                  && GivenUp(cfg.service, x.t.conns[id], s.io.(toWrite := true, toRead := true)))
              || Due(x, s, id)
  {
    TurnDoes(cfg, x, s, id);
    hide ConfigOk, Bounded, Joined, WaitJoint, TurnJoint, Plausible, Reported, Due, GivenUp, Handle, OldTable, Inv;
    LiveIsOk(cfg, x.t, id);
    var c, io := x.t.conns[id], s.io.(toWrite := true, toRead := true);
    GivenUpIff(cfg.service, c, io);
    HandleOk(cfg.service, c, io);
  }

  /** A peer whose request, in any pieces, is complete when its event is reported, and takes the whole reply, has been
      sent that reply after the turn. */
  lemma TurnSendsReply(cfg: Config, x: Joint, s: Surroundings, id: nat, pieces: seq<seq<Byte>>, reply: Reply)
    requires Ready(cfg, x, s) && Live(x.t, id) && Reported(cfg, x, s, id) && x.t.conns[id].phase == Receiving
    requires var stream := x.t.conns[id].reader.stream;
             && pieces != [] && Fit(stream, pieces) && Bring(s.io.recvs, pieces)
             && OneShot(true, Assembled(stream, pieces)).state == BodyValidated
             && cfg.service(x.t.conns[id].peer, OneShot(true, Assembled(stream, pieces))) == Some(reply)
    requires Taken(s.io.sends) >= |reply|
    ensures var u := TurnJoint(cfg, x, s).t;
            && id < |u.conns| && u.conns[id].sent == reply && u.conns[id].phase == Closing
            && (u.conns[id].sock == NO_SOCKET <==> PeerLeaves(s.io.drains) || Due(x, s, id))
  {
    TurnDoes(cfg, x, s, id);
    hide ConfigOk, Bounded, Joined, WaitJoint, TurnJoint, Plausible, Reported, Due, Handle, OldTable, Inv;
    hide OneShot, Fit, Bring, Assembled, Taken, PeerLeaves;
    LiveIsOk(cfg, x.t, id);
    var c, io := x.t.conns[id], s.io.(toWrite := true, toRead := true);
    WholeReplySent(cfg.service, c, pieces, reply, io);
    HandleOk(cfg.service, c, io);
  }

  // ---- How long a connection is left alone ----

  /** When each open connection was accepted, by its socket. */
  ghost predicate Aged(t: Thread, since: map<int, int>, clock: int)
  {
    && since.Keys == t.first.Keys + t.second.Keys
    && (forall k :: k in since ==> since[k] <= clock)
    && (forall k :: k in OldTable(t) ==> since[k] <= t.lastSweep)
  }

  ghost function Stamped(since: map<int, int>, t: Thread, now: int): map<int, int>
  {
    map k | k in t.first.Keys + t.second.Keys :: if k in since then since[k] else now
  }

  /** Only the new table grows, and only a sweep makes it the old one. */
  lemma OldOnlyShrinks(cfg: Config, t: Thread, i: Input)
    ensures OldTable(Handled(cfg, t, i)).Keys <= OldTable(t).Keys
  {
    hide Serve, AcceptConnection, Listened, FindConnection, OldTable;
    ListenedFrame(cfg, t, i.poller);
    SameOld(t, Listened(cfg, t, i.poller));
    if i.event.Some? {
      var u, s := Listened(cfg, t, i.poller), i.event.value;
      if s != NO_SOCKET && s in cfg.listen {
        AcceptOld(cfg, u, i.acceptance, i.poller);
        var (v, got) := AcceptConnection(cfg, u, i.acceptance, i.poller);
        if got.Some? {
          ServeOld(cfg, v, got.value, i.poller, i.io);
        }
      } else if FindConnection(u, s).Some? {
        ServeOld(cfg, u, FindConnection(u, s).value, i.poller, i.io);
      }
    }
  }

  lemma SameOld(t: Thread, u: Thread)
    requires u.first == t.first && u.second == t.second && u.newIsFirst == t.newIsFirst
    ensures OldTable(u) == OldTable(t)
  {
  }

  lemma CloseOld(t: Thread, id: nat)
    ensures OldTable(Close(t, id)).Keys <= OldTable(t).Keys
  {
  }

  lemma ServeOld(cfg: Config, t: Thread, id: nat, p: Tcp.Poller, io: Io)
    ensures OldTable(Serve(cfg, t, id, p, io)).Keys <= OldTable(t).Keys
  {
    hide Handle, Close;
    var c := Handle(cfg.service, At(t, id), IoOf(t, p, At(t, id).sock, io)).0;
    CloseOld(Put(t, id, c), id);
  }

  lemma AcceptOld(cfg: Config, t: Thread, a: Acceptance, p: Tcp.Poller)
    ensures OldTable(AcceptConnection(cfg, t, a, p).0).Keys <= OldTable(t).Keys
  {
    hide GetConnection, Enter, Close;
    if a.Accepted? {
      GrowTables(t, a);
      var (u, got) := GetConnection(t, a.sock, a.peer, a.memory);
      if got.Some? {
        CloseOld(u, got.value);
        EnterOld(cfg, u.(registered := u.registered + {a.sock}), got.value);
      }
    }
  }

  lemma EnterOld(cfg: Config, t: Thread, id: nat)
    ensures OldTable(Enter(cfg, t, id).0).Keys <= OldTable(t).Keys
  {
    hide Close;
    CloseOld(Put(t, id, At(t, id).(table := TableId(t))), id);
  }

  lemma GrowTables(t: Thread, a: Acceptance)
    requires a.Accepted?
    ensures OldTable(GetConnection(t, a.sock, a.peer, a.memory).0) == OldTable(t)
  {
    hide Grow;
    GrowFrame(t, Min(a.memory, GROWTH));
  }

  lemma TurnAged(cfg: Config, x: Joint, s: Surroundings, since: map<int, int>, clock: int)
    requires Ready(cfg, x, s) && Aged(x.t, since, clock) && clock <= s.now <= s.later
    ensures Aged(TurnJoint(cfg, x, s).t, Stamped(since, TurnJoint(cfg, x, s).t, s.now), s.later)
  {
    hide Inv, ConfigOk, Bounded, Joined, Handled, CloseAll, Listened, WaitJoint, TurnJoint, SweepsAll, Faithful;
    var i := InputOf(cfg, x, s);
    TurnJoined(cfg, x, s);
    OldOnlyShrinks(cfg, x.t, i);
    HandledClock(cfg, x.t, i);
  }

  /** The clock never goes back. */
  ghost predicate Steady(clock: int, surroundings: seq<Surroundings>)
    decreases |surroundings|
  {
    surroundings == []
    || (clock <= surroundings[0].now <= surroundings[0].later && Steady(surroundings[0].later, surroundings[1..]))
  }

  ghost function RunStamped(cfg: Config, x: Joint, since: map<int, int>, surroundings: seq<Surroundings>): map<int, int>
    decreases |surroundings|
  {
    if surroundings == [] then since
    else
      var y := TurnJoint(cfg, x, surroundings[0]);
      RunStamped(cfg, y, Stamped(since, y.t, surroundings[0].now), surroundings[1..])
  }

  lemma {:induction false} RunAged(cfg: Config, x: Joint, since: map<int, int>, clock: int,
                                   surroundings: seq<Surroundings>) returns (end: int)
    requires ConfigOk(cfg) && Inv(cfg, x.t, NONE) && Bounded(cfg, x.t) && Joined(cfg, x)
    requires PlausibleRun(cfg, x, surroundings) && Aged(x.t, since, clock) && Steady(clock, surroundings)
    ensures var y := RunJoint(cfg, x, surroundings); Aged(y.t, RunStamped(cfg, x, since, surroundings), end)
    decreases |surroundings|
  {
    hide ConfigOk, Inv, Bounded, Joined, Plausible, TurnJoint, Turn, Possible, Faithful, InputOf, Aged, Stamped;
    end := clock;
    if surroundings != [] {
      var s := surroundings[0];
      TurnJoined(cfg, x, s);
      TurnKeeps(cfg, x.t, InputOf(cfg, x, s));
      TurnBounded(cfg, x.t, InputOf(cfg, x, s));
      TurnAged(cfg, x, s, since, clock);
      var y := TurnJoint(cfg, x, s);
      end := RunAged(cfg, y, Stamped(since, y.t, s.now), s.later, surroundings[1..]);
    }
  }

  /** In every run with a steady clock, whatever a sweep closes was accepted at least sixty seconds before. */
  lemma SweptAfterAMinute(cfg: Config, now: int, surroundings: seq<Surroundings>, s: Surroundings, id: nat)
    requires ConfigOk(cfg) && PlausibleRun(cfg, StartJoint(cfg, now), surroundings) && Steady(now, surroundings)
    requires var x := RunJoint(cfg, StartJoint(cfg, now), surroundings); Live(x.t, id) && Due(x, s, id)
    ensures var x := RunJoint(cfg, StartJoint(cfg, now), surroundings);
            var since := RunStamped(cfg, StartJoint(cfg, now), map[], surroundings);
            x.t.conns[id].sock in since && s.now - since[x.t.conns[id].sock] >= 60
  {
    hide ConfigOk, Inv, Bounded, Joined, PlausibleRun, StartJoint, RunJoint, RunStamped, Steady;
    StartJoined(cfg, now);
    StartBounded(cfg, now);
    var end := RunAged(cfg, StartJoint(cfg, now), map[], now, surroundings);
    var x := RunJoint(cfg, StartJoint(cfg, now), surroundings);
    assert OldTable(x.t).Keys <= x.t.first.Keys + x.t.second.Keys;
  }
}

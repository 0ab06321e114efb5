/** What holds over whole runs of the TCP thread. */
module TcpRuns {
  import opened Options
  import opened Chains
  import opened Connections
  import opened Tcp
  import opened TcpSafety

  function Run(cfg: Config, t: Thread, inputs: seq<Input>): Thread
    decreases |inputs|
  {
    if inputs == [] then t else Run(cfg, Turn(cfg, t, inputs[0]), inputs[1..])
  }

  ghost predicate PossibleRun(cfg: Config, t: Thread, inputs: seq<Input>)
    decreases |inputs|
  {
    inputs == [] || (Possible(cfg, t, inputs[0]) && PossibleRun(cfg, Turn(cfg, t, inputs[0]), inputs[1..]))
  }

  lemma {:induction false} RunKeeps(cfg: Config, t: Thread, inputs: seq<Input>)
    requires Inv(cfg, t, NONE) && PossibleRun(cfg, t, inputs)
    ensures Inv(cfg, Run(cfg, t, inputs), NONE)
    decreases |inputs|
  {
    hide Inv, Possible, Turn;
    if inputs != [] {
      TurnKeeps(cfg, t, inputs[0]);
      RunKeeps(cfg, Turn(cfg, t, inputs[0]), inputs[1..]);
    }
  }

  // ---- No connection is lost ----

  ghost function Elements(s: seq<int>): set<int>
  {
    set x | x in s
  }

  lemma {:induction false} DistinctCount(s: seq<int>)
    requires Distinct(s)
    ensures |Elements(s)| == |s|
    decreases |s|
  {
    if s != [] {
      var rest := s[1..];
      DistinctCount(rest);
      assert Elements(s) == Elements(rest) + {s[0]} by {
        assert s == [s[0]] + rest;
      }
    }
  }

  ghost function Below(n: nat): set<int>
  {
    if n == 0 then {} else Below(n - 1) + {n - 1}
  }

  lemma {:induction false} BelowCount(n: nat)
    ensures |Below(n)| == n && forall i :: i in Below(n) <==> 0 <= i < n
  {
    if n > 0 {
      BelowCount(n - 1);
    }
  }

  ghost predicate Injective(m: map<int, nat>)
  {
    forall s, r :: s in m && r in m && m[s] == m[r] ==> s == r
  }

  ghost function Image(m: map<int, nat>): set<int>
  {
    set s | s in m :: m[s] as int
  }

  lemma {:induction false} ImageCount(m: map<int, nat>)
    requires Injective(m)
    ensures |Image(m)| == |m|
    decreases |m|
  {
    if |m| != 0 {
      var s := SomeKey(m);
      var rest := m - {s};
      ImageCount(rest);
      assert Image(m) == Image(rest) + {m[s] as int} by {
        assert forall r :: r in m ==> r == s || (r in rest && rest[r] == m[r]);
      }
      assert m[s] as int !in Image(rest);
      assert |m| == |m.Keys| && |rest| == |rest.Keys| && rest.Keys == m.Keys - {s};
    } else {
      assert m == map[];
    }
  }

  lemma OwnedInjective(t: Thread, m: map<int, nat>, table: int)
    requires TableOk(t, m, table, NONE)
    ensures Injective(m)
  {
  }

  lemma IdsApart(cfg: Config, t: Thread)
    requires Inv(cfg, t, NONE)
    ensures Elements(t.free) !! Image(t.first) && Elements(t.free) !! Image(t.second)
    ensures Image(t.first) !! Image(t.second)
  {
  }

  lemma IdsCovered(cfg: Config, t: Thread, i: int)
    requires Inv(cfg, t, NONE)
    ensures 0 <= i < |t.conns| <==> i in Elements(t.free) + Image(t.first) + Image(t.second)
  {
  }

  lemma IdsPartition(cfg: Config, t: Thread)
    requires Inv(cfg, t, NONE)
    ensures Below(|t.conns|) == Elements(t.free) + Image(t.first) + Image(t.second)
    ensures Elements(t.free) !! Image(t.first) && Elements(t.free) !! Image(t.second)
    ensures Image(t.first) !! Image(t.second)
  {
    hide Inv, Below, Image, Elements;
    BelowCount(|t.conns|);
    IdsApart(cfg, t);
    forall i: int ensures i in Below(|t.conns|) <==> i in Elements(t.free) + Image(t.first) + Image(t.second) {
      IdsCovered(cfg, t, i);
    }
  }

  /** Every connection ever allocated is in the pool or in one of the tables. */
  lemma NoneLost(cfg: Config, t: Thread)
    requires Inv(cfg, t, NONE)
    ensures |t.free| + |t.first| + |t.second| == |t.conns|
  {
    hide Inv, Injective, Image, Elements, Below, PoolOk, TableOk;
    InvParts(cfg, t);
    IdsPartition(cfg, t);
    DistinctCount(t.free);
    BelowCount(|t.conns|);
    OwnedInjective(t, t.first, 1);
    OwnedInjective(t, t.second, 2);
    ImageCount(t.first);
    ImageCount(t.second);
    assert |Elements(t.free) + Image(t.first)| == |t.free| + |t.first|;
  }

  lemma InvParts(cfg: Config, t: Thread)
    requires Inv(cfg, t, NONE)
    ensures Distinct(t.free) && TableOk(t, t.first, 1, NONE) && TableOk(t, t.second, 2, NONE)
  {
  }

  // ---- Connections only move forward ----

  ghost predicate Evolves(t: Thread, u: Thread)
  {
    forall id: nat :: Live(t, id) ==>
      id < |u.conns| && (u.conns[id].sock == NO_SOCKET || Later(t.conns[id], u.conns[id]))
  }

  ghost predicate NoneTaken(t: Thread, u: Thread)
  {
    |u.conns| == |t.conns| && forall id: nat :: Live(u, id) ==> Live(t, id)
  }

  lemma EvolvesThen(t: Thread, u: Thread, v: Thread)
    requires Evolves(t, u) && Evolves(u, v) && NoneTaken(u, v)
    ensures Evolves(t, v)
  {
  }

  lemma NoneTakenThen(t: Thread, u: Thread, v: Thread)
    requires NoneTaken(t, u) && NoneTaken(u, v)
    ensures NoneTaken(t, v)
  {
  }

  lemma CloseEvolves(t: Thread, id: nat)
    ensures Evolves(t, Close(t, id)) && NoneTaken(t, Close(t, id))
  {
  }

  lemma SettleEvolves(t: Thread, id: nat, c: Connection, kept: bool)
    requires Live(t, id) && Later(t.conns[id], c)
    ensures Evolves(t, Settle(t, id, c, kept)) && NoneTaken(t, Settle(t, id, c, kept))
  {
  }

  lemma ServeEvolves(cfg: Config, t: Thread, id: nat, p: Poller, io: Io)
    requires Inv(cfg, t, NONE) && Live(t, id)
    ensures Evolves(t, Serve(cfg, t, id, p, io)) && NoneTaken(t, Serve(cfg, t, id, p, io))
  {
    hide Inv, ConnectionOk, Handle, Settle, Later, Evolves, NoneTaken;
    LiveIsOk(cfg, t, id);
    HandleOk(cfg.service, t.conns[id], IoOf(t, p, t.conns[id].sock, io));
    var (c, kept) := Handle(cfg.service, t.conns[id], IoOf(t, p, t.conns[id].sock, io));
    SettleEvolves(t, id, c, kept);
  }

  lemma {:induction false} CloseAllEvolves(t: Thread, inOld: bool, order: seq<int>)
    ensures Evolves(t, CloseAll(t, inOld, order)) && NoneTaken(t, CloseAll(t, inOld, order))
    decreases |order|
  {
    hide Close, Evolves, NoneTaken;
    if order == [] {
      Unmoved(t, t);
    } else {
      var m := TableOf(t, inOld);
      var u := if order[0] in m then Close(t, m[order[0]]) else t;
      if order[0] in m {
        CloseEvolves(t, m[order[0]]);
      } else {
        Unmoved(t, t);
      }
      CloseAllEvolves(u, inOld, order[1..]);
      EvolvesThen(t, u, CloseAll(u, inOld, order[1..]));
      NoneTakenThen(t, u, CloseAll(u, inOld, order[1..]));
    }
  }

  lemma Unmoved(t: Thread, u: Thread)
    requires u.conns == t.conns
    ensures Evolves(t, u) && NoneTaken(t, u)
  {
  }

  lemma SweepEvolves(t: Thread, now: int, later: int, order: seq<int>)
    ensures Evolves(t, Sweep(t, now, later, order)) && NoneTaken(t, Sweep(t, now, later, order))
  {
    hide CloseAll, Evolves, NoneTaken;
    CloseAllEvolves(t, true, order);
    var u, v := CloseAll(t, true, order), Sweep(t, now, later, order);
    if now - t.lastSweep >= SWEEP_SECONDS {
      Unmoved(u, v);
      EvolvesThen(t, u, v);
      NoneTakenThen(t, u, v);
    } else {
      Unmoved(t, v);
    }
  }

  /** Accepting touches only a connection from the pool. */
  lemma GetEvolves(cfg: Config, t: Thread, s: int, peer: Peer, memory: nat)
    requires Inv(cfg, t, NONE)
    ensures var (u, got) := GetConnection(t, s, peer, memory);
            Evolves(t, u) && (got.Some? ==> !Live(t, got.value))
  {
    hide Grow, ConnectionOk, TableOk, Later;
    var n := Min(memory, GROWTH);
    GrowKeeps(cfg, t, n);
    var g := if t.free == [] then Grow(t, n) else t;
    if g.free != [] {
      assert g.free[0] in g.free;
      var id := g.free[0];
      assert g.conns[id].sock == NO_SOCKET;
      assert id < |t.conns| ==> t.conns[id] == g.conns[..|t.conns|][id];
    }
    var u := GetConnection(t, s, peer, memory).0;
    forall id: nat | Live(t, id) ensures id < |u.conns| && u.conns[id] == t.conns[id] {
      assert t.conns[id] == g.conns[..|t.conns|][id];
    }
    LaterSame();
  }

  lemma LaterSame()
    ensures forall c :: Later(c, c)
  {
  }

  lemma AcceptEvolves(cfg: Config, t: Thread, a: Acceptance, p: Poller)
    requires Inv(cfg, t, NONE)
    ensures Evolves(t, AcceptConnection(cfg, t, a, p).0)
  {
    hide Inv, GetConnection;
    if a.Denied? {
      Unmoved(t, t);
    } else {
      GetEvolves(cfg, t, a.sock, a.peer, a.memory);
      var (u, got) := GetConnection(t, a.sock, a.peer, a.memory);
      if got.Some? {
        AfterGet(cfg, t, u, got.value, a, p);
      }
    }
  }

  /** What follows taking a connection touches no other. */
  lemma AfterGet(cfg: Config, t: Thread, u: Thread, id: nat, a: Acceptance, p: Poller)
    requires Evolves(t, u) && !Live(t, id) && a.Accepted?
    ensures Evolves(t, Close(u, id)) && Evolves(t, Enter(cfg, u.(registered := u.registered + {a.sock}), id).0)
  {
    hide Later;
  }

  /** In one turn a connection keeps its peer, socket and table, goes from receiving to transmitting to
      closing and never back, and sends more of the same response; or it is released. */
  lemma ConnectionsOnlyAdvance(cfg: Config, t: Thread, i: Input)
    requires Inv(cfg, t, NONE) && Possible(cfg, t, i)
    ensures Evolves(t, Turn(cfg, t, i))
  {
    hide Inv, Sweep, Evolves, NoneTaken, Handled, Unused;
    HandledEvolves(cfg, t, i);
    SweepEvolves(Handled(cfg, t, i), i.now, i.later, i.order);
    EvolvesThen(t, Handled(cfg, t, i), Turn(cfg, t, i));
  }

  lemma HandledEvolves(cfg: Config, t: Thread, i: Input)
    requires Inv(cfg, t, NONE) && Unused(cfg, t, i.acceptance)
    ensures Evolves(t, Handled(cfg, t, i))
  {
    hide Inv, OnEvent, Evolves, NoneTaken, Listened;
    var u := Listened(cfg, t, i.poller);
    ListenedFrame(cfg, t, i.poller);
    ListenKeeps(cfg, t, i.poller);
    Unmoved(t, u);
    if i.event.Some? {
      OnEventEvolves(cfg, u, i.event.value, i);
      EvolvesFrom(t, u, OnEvent(cfg, u, i.event.value, i));
    }
  }

  lemma EvolvesFrom(t: Thread, u: Thread, v: Thread)
    requires u.conns == t.conns && Evolves(u, v)
    ensures Evolves(t, v)
  {
  }

  lemma OnEventEvolves(cfg: Config, t: Thread, s: int, i: Input)
    requires Inv(cfg, t, NONE) && Unused(cfg, t, i.acceptance)
    ensures Evolves(t, OnEvent(cfg, t, s, i))
  {
    hide Inv, AcceptConnection, Serve, FindConnection, Unused, Evolves, NoneTaken;
    if s != NO_SOCKET && s in cfg.listen {
      AcceptKeeps(cfg, t, i.acceptance, i.poller);
      AcceptEvolves(cfg, t, i.acceptance, i.poller);
      var (u, got) := AcceptConnection(cfg, t, i.acceptance, i.poller);
      if got.Some? {
        ServeEvolves(cfg, u, got.value, i.poller, i.io);
        EvolvesThen(t, u, Serve(cfg, u, got.value, i.poller, i.io));
      }
    } else if FindConnection(t, s).Some? {
      FoundIsLive(cfg, t, s);
      ServeEvolves(cfg, t, FindConnection(t, s).value, i.poller, i.io);
    } else {
      Unmoved(t, t);
    }
  }

  // ---- The main results ----

  /** What a live connection may be relied on for. */
  ghost predicate Sound(cfg: Config, t: Thread, id: nat)
    requires id < |t.conns|
  {
    var c := t.conns[id];
    && id !in t.free && Seated(t, id) && (c.sock in t.first <==> c.table == 1) && (c.sock in t.second <==> c.table == 2)
    && t.sweeps <= c.born + 1
    && (c.phase == Receiving ==> c.sent == [])
    && (c.phase == Transmitting || c.phase == Closing ==>
          && cfg.service(c.peer, c.reader) == Some(c.response) && c.sent <= c.response
          && c.reader.state == Incremental.BodyValidated)
    && (c.phase == Closing ==> c.sent == c.response)
  }

  lemma LiveIsSound(cfg: Config, t: Thread, id: nat)
    requires Inv(cfg, t, NONE) && Live(t, id)
    ensures Sound(cfg, t, id)
  {
  }

  /** In every run, with any poller and any results of recv, send and accept: each connection is either
      in the pool, once, or sits under its own socket in exactly the table it names; none is lost; what
      a live one has sent is a prefix of the reply to the message it received, and all of it when it is
      closing; and none has seen two sweeps. */
  lemma EveryRunIsSafe(cfg: Config, now: int, inputs: seq<Input>)
    requires PossibleRun(cfg, Start(cfg, now), inputs)
    ensures var t := Run(cfg, Start(cfg, now), inputs);
            && Inv(cfg, t, NONE) && |t.free| + |t.first| + |t.second| == |t.conns|
            && (forall id: nat :: Live(t, id) ==> Sound(cfg, t, id))
  {
    hide Inv, Run, Start, Sound;
    StartOk(cfg, now);
    RunKeeps(cfg, Start(cfg, now), inputs);
    var t := Run(cfg, Start(cfg, now), inputs);
    NoneLost(cfg, t);
    forall id: nat | Live(t, id) ensures Sound(cfg, t, id) {
      LiveIsSound(cfg, t, id);
    }
  }

  /** Leaving the loop closes everything: the whole pool is free again. */
  lemma CleanupReturnsAll(cfg: Config, t: Thread, oldOrder: seq<int>, newOrder: seq<int>)
    requires Inv(cfg, t, NONE) && Lists(oldOrder, OldTable(t)) && Lists(newOrder, NewTable(t))
    ensures var u := Cleanup(t, oldOrder, newOrder);
            Inv(cfg, u, NONE) && u.first == map[] && u.second == map[] && |u.free| == |u.conns|
  {
    hide Inv, CloseAll, Lists;
    CloseAllEmpties(cfg, t, true, oldOrder);
    var u := CloseAll(t, true, oldOrder);
    CloseAllEmpties(cfg, u, false, newOrder);
    NoneLost(cfg, Cleanup(t, oldOrder, newOrder));
  }
}

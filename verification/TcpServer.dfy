/** CTCPStunThread and CConnectionPool as they run. */
module TcpServer {
  import Bits
  import opened Options
  import opened Chains
  import opened Connections
  import Incremental
  import opened Tcp
  import opened TcpSafety
  import opened SocketTables

  lemma PutSame(t: Thread, id: nat)
    requires id < |t.conns|
    ensures Put(t, id, t.conns[id]) == t
  {
  }

  lemma PutTwice(t: Thread, id: nat, c: Connection, d: Connection)
    ensures Put(Put(t, id, c), id, d) == Put(t, id, d)
  {
  }

  /** A change to a connection and then settling it is settling it. */
  lemma SettleAfterPut(t: Thread, id: nat, c: Connection, d: Connection, kept: bool)
    ensures Settle(Put(t, id, c), id, d, kept) == Settle(t, id, d, kept)
  {
  }

  lemma SettleClosed(t: Thread, id: nat, c: Connection)
    ensures Settle(t, id, c, false) == Close(Put(t, id, c), id)
  {
  }

  lemma SettleKept(t: Thread, id: nat, c: Connection)
    ensures Settle(t, id, c, true) == Put(t, id, c)
  {
  }

  lemma AdvanceFrame(c: Connection, k: nat)
    requires k <= |Rest(c)|
    ensures Advance(c, k).sock == c.sock
  {
  }

  lemma {:induction false} WriteReadsNothing(c: Connection, io: Io, recvs: seq<Recv>)
    ensures Connections.WriteBytes(c, io.(recvs := recvs)) == Connections.WriteBytes(c, io)
    decreases |io.sends|
  {
    hide Advance, Rest;
    if io.sends != [] && io.sends[0].Took? && io.sends[0].count != 0 {
      var d := Advance(c, Min(io.sends[0].count, |Rest(c)|));
      WriteReadsNothing(d, io.(sends := io.sends[1..]), recvs);
    }
  }

  lemma AnswerReadsNoMore(service: Service, c: Connection, io: Io, recvs: seq<Recv>)
    ensures Answer(service, c, io.(recvs := recvs)) == Answer(service, c, io)
  {
    hide Connections.WriteBytes;
    var reply := service(c.peer, c.reader);
    if reply.Some? {
      WriteReadsNothing(c.(response := reply.value, phase := Transmitting), io, recvs);
    }
  }

  lemma HasPool(cfg: Config, t: Thread, held: int)
    requires Inv(cfg, t, held)
    ensures PoolOk(t)
  {
  }

  lemma LiveIsNotFree(cfg: Config, t: Thread, id: nat)
    requires Inv(cfg, t, NONE) && Live(t, id)
    ensures id !in t.free
  {
  }

  lemma HeldIsNotFree(cfg: Config, t: Thread, id: nat)
    requires Inv(cfg, t, id) && Holds(t, id)
    ensures id !in t.free
  {
  }

  // ---- Emptying a table item by item ----

  /** `order` lists what is no longer in the table. */
  ghost predicate ListsGone(order: seq<int>, all: map<int, nat>, left: map<int, nat>)
  {
    && Distinct(order) && (forall s :: s in all <==> s in order || s in left)
    && (forall s :: s in order ==> s !in left)
  }

  lemma NothingClosed(t: Thread, inOld: bool)
    ensures CloseAll(t, inOld, []) == t && ListsGone([], TableOf(t, inOld), TableOf(t, inOld))
  {
  }

  lemma AllGone(order: seq<int>, all: map<int, nat>)
    requires ListsGone(order, all, map[])
    ensures Lists(order, all)
  {
  }

  lemma {:induction false} CloseAllThen(t: Thread, inOld: bool, order: seq<int>, s: int)
    ensures var u := CloseAll(t, inOld, order);
            CloseAll(t, inOld, order + [s]) == if s in TableOf(u, inOld) then Close(u, TableOf(u, inOld)[s]) else u
    decreases |order|
  {
    hide Close;
    if order == [] {
      assert order + [s] == [s];
      NothingClosed(CloseAll(t, inOld, [s]), inOld);
    } else {
      assert (order + [s])[1..] == order[1..] + [s];
      var m := TableOf(t, inOld);
      CloseAllThen(if order[0] in m then Close(t, m[order[0]]) else t, inOld, order[1..], s);
    }
  }

  lemma OneMore(before: Thread, inOld: bool, order: seq<int>, all: map<int, nat>, t: Thread, s: int)
    requires t == CloseAll(before, inOld, order) && s in TableOf(t, inOld) && ListsGone(order, all, TableOf(t, inOld))
    ensures CloseAll(before, inOld, order + [s]) == Close(t, TableOf(t, inOld)[s])
    ensures ListsGone(order + [s], all, TableOf(t, inOld) - {s})
  {
    hide CloseAll, Close;
    CloseAllThen(before, inOld, order, s);
  }

  /** Handling the event does not look at the order of the sweep. */
  lemma OrderIsLater(cfg: Config, t: Thread, i: Input, order: seq<int>)
    ensures Handled(cfg, t, i.(order := order)) == Handled(cfg, t, i)
  {
  }

  /** A connection that has been given what recv returned. */
  function Fed(c: Connection, bytes: seq<Bits.Byte>): Connection
    requires Incremental.Needed(c.reader) > 0
  {
    c.(reader := Incremental.Feed(c.reader, Chunk(c, bytes)))
  }

  /** One turn of the receive loop. */
  lemma ReceiveTurn(service: Service, c: Connection, io: Io, recvs: seq<Recv>, n: nat)
    requires n <= |recvs|
    ensures var r := Connections.ReceiveBytes(service, c, io.(recvs := recvs[n..]));
            if Incremental.Needed(c.reader) <= 0 then r == (c, false)
            else if n == |recvs| || recvs[n].NothingYet? then r == (c, true)
            else if recvs[n].Broken? || recvs[n].bytes == [] then r == (c, false)
            else
              var d := Fed(c, recvs[n].bytes);
              if d.reader.state == Incremental.ParseError then r == (d, false)
              else if d.reader.state == Incremental.BodyValidated then r == Answer(service, d, io)
              else r == Connections.ReceiveBytes(service, d, io.(recvs := recvs[n + 1..]))
  {
    hide Answer, Incremental.Feed, Incremental.Needed, Chunk;
    if n < |recvs| {
      assert recvs[n..][1..] == recvs[n + 1..];
      if Incremental.Needed(c.reader) > 0 && recvs[n].Data? {
        AnswerReadsNoMore(service, Fed(c, recvs[n].bytes), io, recvs[n..]);
      }
    }
  }

  class TcpThread {
    const cfg: Config
    var conns: seq<Connection>
    var free: seq<nat>
    const first: SocketTable
    const second: SocketTable
    var newIsFirst: bool
    var lastSweep: int
    var sweeps: nat
    var registered: set<int>
    var listening: bool

    ghost function Model(): Thread
      reads this, first, second
    {
      Thread(conns, free, first.m, second.m, newIsFirst, lastSweep, sweeps, registered, listening)
    }

    /** The two hash tables are apart and of the size of the connection limit. */
    ghost predicate Tables()
      reads first.Repr(), second.Repr()
    {
      && first.Valid() && second.Valid() && first.hash.fsize == second.hash.fsize == cfg.max
      && first.Repr() !! second.Repr() && this !in first.Repr() && this !in second.Repr()
    }

    constructor (cfg: Config, now: int)
      requires cfg.max > 0
      ensures this.cfg == cfg && Tables() && Model() == Start(cfg, now) && Inv(cfg, Model(), NONE)
      ensures fresh(first.Repr()) && fresh(second.Repr())
    {
      hide SocketTable.Valid;
      this.cfg := cfg;
      conns, free, newIsFirst := [], [], true;
      first := new SocketTable(cfg.max);
      second := new SocketTable(cfg.max);
      lastSweep, sweeps, listening := now, 0, true;
      registered := (set s | s in cfg.listen && s != NO_SOCKET) + {cfg.pipe};
      new;
      StartOk(cfg, now);
    }

    // ---- The pool ----

    method Grow(memory: nat)
      modifies this`conns, this`free
      ensures Model() == Tcp.Grow(old(Model()), Min(memory, GROWTH))
    {
      var i := 0;
      while i < GROWTH && i < memory
        invariant i <= Min(memory, GROWTH)
        invariant Tcp.Grow(Model(), Min(memory, GROWTH) - i) == Tcp.Grow(old(Model()), Min(memory, GROWTH))
      {
        free := [|conns|] + free;
        conns := conns + [BLANK];
        i := i + 1;
      }
    }

    method GetConnection(sock: int, peer: Peer, memory: nat) returns (got: Option<nat>)
      requires PoolOk(Model())
      modifies this`conns, this`free
      ensures (Model(), got) == Tcp.GetConnection(old(Model()), sock, peer, memory)
    {
      hide SocketTable.Valid, Tcp.Grow, Distinct;
      if free == [] {
        Grow(memory);
        if free == [] {
          return None;
        }
      }
      var id := free[0];
      free := free[1..];
      if id < |conns| {
        conns := conns[id := conns[id].(phase := Receiving, sock := sock, peer := peer,
                                        reader := Incremental.Fresh(true), sent := [], tx := 0, table := -1,
                                        born := sweeps)];
      }
      got := Some(id);
    }

    /** Never for a connection that is in the pool already. */
    method ReleaseConnection(id: nat)
      requires id !in free
      modifies this`free
      ensures free == [id] + old(free)
    {
      free := [id] + free;
    }

    method CloseConnection(id: nat)
      requires id < |conns| && id !in free
      requires Tables()
      modifies this, first.Repr(), second.Repr()
      ensures Tables()
      ensures Model() == Close(old(Model()), id)
    {
      hide SocketTable.Valid;
      var sock := conns[id].sock;
      registered := registered - {sock};
      conns := conns[id := conns[id].(sock := NO_SOCKET)];
      ReleaseConnection(id);
      if conns[id].table == 1 {
        var gone := first.Remove(sock);
      } else if conns[id].table == 2 {
        var gone := second.Remove(sock);
      }
    }

    // ---- A connection's three loops ----

    method ConsumeRemoteClose(id: nat, drains: seq<Recv>)
      requires id < |conns| && id !in free
      requires Tables()
      modifies this, first.Repr(), second.Repr()
      ensures Tables()
      ensures Model() == Settle(old(Model()), id, old(conns[id]), Connections.ConsumeRemoteClose(drains))
    {
      hide TcpThread.Tables, Close;
      PutSame(Model(), id);
      var n := 0;
      while n < |drains|
        invariant Tables() && n <= |drains| && Model() == old(Model())
        invariant Connections.ConsumeRemoteClose(drains[n..]) == Connections.ConsumeRemoteClose(drains)
      {
        if drains[n].NothingYet? {
          return;
        }
        if drains[n].Broken? || drains[n].bytes == [] {
          CloseConnection(id);
          return;
        }
        n := n + 1;
      }
    }

    /** The poller's answer; it changes no registration. */
    method ChangeEventSet(sock: int, write: bool, p: Poller) returns (ok: bool)
      ensures ok == ChangeOk(Model(), p, sock, write)
    {
      ok := if p.Exact? then sock in registered else p.change(sock, write);
    }

    /** The whole response is out. */
    method FinishResponse(id: nat, p: Poller, drains: seq<Recv>)
      requires id < |conns| && id !in free
      requires Tables()
      modifies this, first.Repr(), second.Repr()
      ensures Tables()
      ensures Model() == Settle(old(Model()), id, old(conns[id]).(phase := Closing),
                                ChangeOk(old(Model()), p, old(conns[id].sock), false)
                                && Connections.ConsumeRemoteClose(drains))
    {
      hide TcpThread.Tables, Close, Connections.ConsumeRemoteClose, Settle;
      ghost var before := Model();
      conns := conns[id := conns[id].(phase := Closing)];
      ghost var c := conns[id];
      var ok := ChangeEventSet(conns[id].sock, false, p);
      if ok {
        ConsumeRemoteClose(id, drains);
        SettleAfterPut(before, id, c, c, Connections.ConsumeRemoteClose(drains));
      } else {
        CloseConnection(id);
        SettleClosed(before, id, c);
      }
    }

    /** Some of the response is out. */
    method SentSome(id: nat, count: nat)
      requires id < |conns|
      modifies this`conns
      ensures |conns| == |old(conns)| && Model() == Put(old(Model()), id, conns[id])
      ensures conns[id] == Advance(old(conns[id]), Min(count, |Rest(old(conns[id]))|))
    {
      var c := conns[id];
      var k := Min(count, |Rest(c)|);
      conns := conns[id := c.(tx := c.tx + k, sent := c.sent + Rest(c)[..k])];
    }

    method WriteBytes(id: nat, p: Poller, io: Io)
      requires id < |conns| && id !in free
      requires Tables()
      modifies this, first.Repr(), second.Repr()
      ensures Tables()
      ensures var (c, kept) := Connections.WriteBytes(old(conns[id]), IoOf(old(Model()), p, old(conns[id].sock), io));
              Model() == Settle(old(Model()), id, c, kept)
    {
      hide TcpThread.Tables, Settle, Close, Advance, Rest, Connections.ConsumeRemoteClose, Put;
      ghost var before := Model();
      ghost var all := IoOf(before, p, conns[id].sock, io);
      PutSame(before, id);
      var n := 0;
      while n < |io.sends|
        invariant Tables() && n <= |io.sends| && id < |conns| && Model() == Put(before, id, conns[id])
        invariant free == before.free
        invariant conns[id].sock == old(conns[id].sock) && registered == old(registered)
        invariant Connections.WriteBytes(conns[id], all.(sends := io.sends[n..]))
                  == Connections.WriteBytes(old(conns[id]), all)
      {
        if io.sends[n].Blocked? {
          break;
        }
        if io.sends[n].Refused? || io.sends[n].count == 0 {
          ghost var c := conns[id];
          CloseConnection(id);
          SettleClosed(before, id, c);
          return;
        }
        ghost var c := conns[id];
        SentSome(id, io.sends[n].count);
        PutTwice(before, id, c, conns[id]);
        AdvanceFrame(c, Min(io.sends[n].count, |Rest(c)|));
        if conns[id].tx >= |conns[id].response| {
          ghost var d := conns[id];
          FinishResponse(id, p, io.drains);
          SettleAfterPut(before, id, d, d.(phase := Closing), all.toRead && Connections.ConsumeRemoteClose(io.drains));
          return;
        }
        n := n + 1;
      }
      SettleKept(before, id, conns[id]);
    }

    /** The message is complete: hand it to the request handler and start to send its reply. */
    method AnswerRequest(id: nat, p: Poller, io: Io)
      requires id < |conns| && id !in free
      requires Tables()
      modifies this, first.Repr(), second.Repr()
      ensures Tables()
      ensures var (c, kept) := Answer(cfg.service, old(conns[id]), IoOf(old(Model()), p, old(conns[id].sock), io));
              Model() == Settle(old(Model()), id, c, kept)
    {
      hide TcpThread.Tables, Settle, Close, Connections.WriteBytes, Put;
      ghost var before := Model();
      PutSame(before, id);
      var reply := cfg.service(conns[id].peer, conns[id].reader);
      if reply.None? {
        ghost var c := conns[id];
        CloseConnection(id);
        SettleClosed(before, id, c);
        return;
      }
      var d := conns[id].(response := reply.value, phase := Transmitting);
      SetConnection(id, d);
      var ok := ChangeEventSet(d.sock, true, p);
      if ok {
        WriteBytes(id, p, io);
        var all := IoOf(before, p, d.sock, io);
        SettleAfterPut(before, id, d, Connections.WriteBytes(d, all).0, Connections.WriteBytes(d, all).1);
      } else {
        CloseConnection(id);
        SettleClosed(before, id, d);
      }
    }

    method SetConnection(id: nat, c: Connection)
      requires id < |conns|
      modifies this`conns
      ensures |conns| == |old(conns)| && conns[id] == c && Model() == Put(old(Model()), id, c)
    {
      conns := conns[id := c];
    }

    method ReceiveBytes(id: nat, p: Poller, io: Io)
      requires id < |conns| && id !in free
      requires Tables()
      modifies this, first.Repr(), second.Repr()
      ensures Tables()
      ensures var all := IoOf(old(Model()), p, old(conns[id].sock), io);
              var (c, kept) := Connections.ReceiveBytes(cfg.service, old(conns[id]), all);
              Model() == Settle(old(Model()), id, c, kept)
    {
      hide TcpThread.Tables, Settle, Close, Answer, Put, Incremental.Feed, Incremental.Needed, Chunk;
      hide Connections.ReceiveBytes;
      ghost var before := Model();
      ghost var all := IoOf(before, p, conns[id].sock, io);
      PutSame(before, id);
      var n := 0;
      while true
        invariant Tables() && n <= |io.recvs| && id < |conns| && Model() == Put(before, id, conns[id])
        invariant free == before.free
        invariant conns[id].sock == old(conns[id].sock) && registered == old(registered)
        invariant Connections.ReceiveBytes(cfg.service, conns[id], all.(recvs := io.recvs[n..]))
                  == Connections.ReceiveBytes(cfg.service, old(conns[id]), all)
        decreases |io.recvs| - n
      {
        ghost var c := conns[id];
        ReceiveTurn(cfg.service, c, all, io.recvs, n);
        var needed := Incremental.Needed(conns[id].reader);
        if needed > 0 && (n == |io.recvs| || io.recvs[n].NothingYet?) {
          SettleKept(before, id, c);
          return;
        }
        if needed <= 0 || io.recvs[n].Broken? || io.recvs[n].bytes == [] {
          CloseConnection(id);
          SettleClosed(before, id, c);
          return;
        }
        var d := Fed(conns[id], io.recvs[n].bytes);
        SetConnection(id, d);
        PutTwice(before, id, c, d);
        if d.reader.state == Incremental.ParseError {
          CloseConnection(id);
          SettleClosed(before, id, d);
          return;
        }
        if d.reader.state == Incremental.BodyValidated {
          AnswerRequest(id, p, io);
          ghost var r := Answer(cfg.service, d, all);
          SettleAfterPut(before, id, d, r.0, r.1);
          return;
        }
        n := n + 1;
      }
    }

    method Serve(id: nat, p: Poller, io: Io)
      requires id < |conns| && id !in free
      requires Tables()
      modifies this, first.Repr(), second.Repr()
      ensures Tables()
      ensures Model() == Tcp.Serve(cfg, old(Model()), id, p, io)
    {
      hide TcpThread.Tables, Settle, Connections.WriteBytes, Connections.ReceiveBytes, Connections.ConsumeRemoteClose;
      ghost var before := Model();
      match conns[id].phase
      case Idle =>
        PutSame(before, id);
        SettleKept(before, id, conns[id]);
      case Receiving => ReceiveBytes(id, p, io);
      case Transmitting => WriteBytes(id, p, io);
      case Closing => ConsumeRemoteClose(id, io.drains);
    }

    // ---- Events ----

    method ProcessConnectionEvent(s: int, p: Poller, io: Io)
      requires Inv(cfg, Model(), NONE)
      requires Tables()
      modifies this, first.Repr(), second.Repr()
      ensures Tables()
      ensures Inv(cfg, Model(), NONE)
      ensures var found := FindConnection(old(Model()), s);
              Model() == if found.Some? then Tcp.Serve(cfg, old(Model()), found.value, p, io) else old(Model())
    {
      hide SocketTable.Valid, Inv, Tcp.Serve;
      var newer, older := if newIsFirst then first else second, if newIsFirst then second else first;
      var found := newer.Lookup(s);
      if found.None? {
        found := older.Lookup(s);
      }
      if found.None? {
        return;
      }
      var id := found.value;
      FoundIsLive(cfg, Model(), s);
      LiveIsNotFree(cfg, Model(), id);
      ServeKeeps(cfg, Model(), id, p, io);
      Serve(id, p, io);
    }

    method EnterTable(id: nat) returns (entered: bool)
      requires id < |conns| && id !in free && conns[id].sock !in first.m && conns[id].sock !in second.m
      requires Tables()
      modifies this, first.Repr(), second.Repr()
      ensures Tables()
      ensures (Model(), if entered then Some(id) else None) == Enter(cfg, old(Model()), id)
    {
      hide SocketTable.Valid, Close;
      conns := conns[id := conns[id].(table := if newIsFirst then 1 else 2)];
      var table := if newIsFirst then first else second;
      entered := table.Insert(conns[id].sock, id);
      if !entered {
        CloseConnection(id);
      }
    }

    method AcceptConnection(a: Acceptance, p: Poller) returns (got: Option<nat>)
      requires Inv(cfg, Model(), NONE) && Unused(cfg, Model(), a)
      requires Tables()
      modifies this, first.Repr(), second.Repr()
      ensures Tables()
      ensures (Model(), got) == Tcp.AcceptConnection(cfg, old(Model()), a, p)
      ensures Inv(cfg, Model(), NONE) && (got.Some? ==> Live(Model(), got.value))
    {
      hide TcpThread.Tables, Inv, Tcp.GetConnection, Enter, Close, PoolOk;
      AcceptKeeps(cfg, Model(), a, p);
      if a.Denied? {
        return None;
      }
      GetKeeps(cfg, Model(), a.sock, a.peer, a.memory);
      HasPool(cfg, Model(), NONE);
      got := GetConnection(a.sock, a.peer, a.memory);
      if got.None? {
        return;
      }
      HeldIsNotFree(cfg, Model(), got.value);
      var ok := if p.Exact? then a.sock !in registered else p.add(a.sock);
      if !a.nonBlocking || !ok {
        CloseConnection(got.value);
        return None;
      }
      registered := registered + {a.sock};
      var entered := EnterTable(got.value);
      if !entered {
        got := None;
      }
    }

    // ---- Sweeping ----

    /** Looks up the first item of the table's index until there is none; `order` lists what came up. */
    method CloseAllConnections(inOld: bool) returns (ghost order: seq<int>)
      requires Inv(cfg, Model(), NONE)
      requires Tables()
      modifies this, first.Repr(), second.Repr()
      ensures Tables()
      ensures Inv(cfg, Model(), NONE) && TableOf(Model(), inOld) == map[]
      ensures Lists(order, TableOf(old(Model()), inOld)) && Model() == CloseAll(old(Model()), inOld, order)
    {
      hide SocketTable.Valid, Inv, Close, Lists, CloseAll;
      order := [];
      ghost var before := Model();
      ghost var all := TableOf(before, inOld);
      NothingClosed(before, inOld);
      var table := if inOld == newIsFirst then second else first;
      var item := table.First();
      while item.Some?
        invariant newIsFirst == before.newIsFirst && Tables() && table.m == TableOf(Model(), inOld)
        invariant item.None? <==> table.m == map[]
        invariant item.Some? ==> item.value.0 in table.m && item.value.1 == table.m[item.value.0]
        invariant Inv(cfg, Model(), NONE) && Model() == CloseAll(before, inOld, order)
        invariant ListsGone(order, all, TableOf(Model(), inOld))
        decreases |TableOf(Model(), inOld)|
      {
        ghost var t := Model();
        var (s, id) := item.value;
        CloseOne(cfg, t, inOld, s);
        TableIsLive(cfg, t, inOld, s);
        LiveIsNotFree(cfg, t, id);
        CloseConnection(id);
        OneMore(before, inOld, order, all, t, s);
        order := order + [s];
        item := table.First();
      }
      AllGone(order, all);
    }

    method SweepDeadConnections(now: int, later: int) returns (ghost order: seq<int>)
      requires Inv(cfg, Model(), NONE)
      requires Tables()
      modifies this, first.Repr(), second.Repr()
      ensures Tables()
      ensures Inv(cfg, Model(), NONE) && SweepsAll(old(Model()), now, order)
      ensures Model() == Sweep(old(Model()), now, later, order)
    {
      hide TcpThread.Tables, Inv, CloseAll, Lists;
      order := [];
      ghost var before := Model();
      if now - lastSweep >= SWEEP_SECONDS {
        order := CloseAllConnections(true);
        SweepKeeps(cfg, before, now, later, order);
        lastSweep := later;
        newIsFirst, sweeps := !newIsFirst, sweeps + 1;
      }
    }

    method ThreadCleanup() returns (ghost oldOrder: seq<int>, ghost newOrder: seq<int>)
      requires Inv(cfg, Model(), NONE)
      requires Tables()
      modifies this, first.Repr(), second.Repr()
      ensures Tables()
      ensures first.m == map[] && second.m == map[] && Model() == Cleanup(old(Model()), oldOrder, newOrder)
      ensures Lists(oldOrder, OldTable(old(Model()))) && Lists(newOrder, NewTable(old(Model())))
      ensures Inv(cfg, Model(), NONE)
    {
      hide TcpThread.Tables, Inv, CloseAll, Lists;
      ghost var before := Model();
      oldOrder := CloseAllConnections(true);
      CloseAllEmpties(cfg, before, true, oldOrder);
      ghost var between := Model();
      newOrder := CloseAllConnections(false);
      CloseAllEmpties(cfg, between, false, newOrder);
    }

    // ---- The loop ----

    method SetListenSocketsOnEpoll(enable: bool, p: Poller)
      modifies this`registered, this`listening
      ensures Model() == SetListen(cfg, old(Model()), enable, p)
    {
      if enable == listening {
        return;
      }
      var r := 0;
      while r < |cfg.listen|
        invariant r <= |cfg.listen|
        invariant SetListenFrom(Model(), cfg.listen[r..], enable, p)
                  == SetListenFrom(old(Model()), cfg.listen, enable, p)
      {
        var s := cfg.listen[r];
        if s != NO_SOCKET {
          if enable {
            var ok := if p.Exact? then s !in registered else p.add(s);
            if !ok {
              return;
            }
            registered := registered + {s};
          } else {
            var ok := if p.Exact? then s in registered else p.remove(s);
            if !ok {
              return;
            }
            registered := registered - {s};
          }
        }
        r := r + 1;
      }
      listening := enable;
    }

    method HandleEvent(s: int, i: Input)
      requires Inv(cfg, Model(), NONE) && Unused(cfg, Model(), i.acceptance)
      requires Tables()
      modifies this, first.Repr(), second.Repr()
      ensures Tables()
      ensures Inv(cfg, Model(), NONE) && Model() == OnEvent(cfg, old(Model()), s, i)
    {
      hide TcpThread.Tables, Inv, Unused, Tcp.AcceptConnection, Tcp.Serve;
      if s != NO_SOCKET && s in cfg.listen {
        var got := AcceptConnection(i.acceptance, i.poller);
        if got.Some? {
          LiveIsNotFree(cfg, Model(), got.value);
          ServeKeeps(cfg, Model(), got.value, i.poller, i.io);
          Serve(got.value, i.poller, i.io);
        }
      } else {
        ProcessConnectionEvent(s, i.poller, i.io);
      }
    }

    /** One turn of Run: what the environment does comes in, how the swept table was listed goes out. */
    method RunTurn(i: Input) returns (ghost order: seq<int>)
      requires Inv(cfg, Model(), NONE) && Unused(cfg, Model(), i.acceptance) && i.event != Some(cfg.pipe)
      requires Tables()
      modifies this, first.Repr(), second.Repr()
      ensures Tables()
      ensures Possible(cfg, old(Model()), i.(order := order)) && Inv(cfg, Model(), NONE)
      ensures Model() == Turn(cfg, old(Model()), i.(order := order))
    {
      hide SocketTable.Valid, Inv, OnEvent, Sweep, SetListen, SweepsAll;
      ghost var before := Model();
      ListenKeeps(cfg, before, i.poller);
      ListenedFrame(cfg, before, i.poller);
      var live1 := first.Size();
      var live2 := second.Size();
      SetListenSocketsOnEpoll(live1 + live2 < cfg.max, i.poller);
      if i.event.Some? {
        HandleEvent(i.event.value, i);
      }
      ghost var handled := Model();
      order := SweepDeadConnections(i.now, i.later);
      assert handled == Handled(cfg, before, i.(order := order)) by {
        OrderIsLater(cfg, before, i, order);
      }
    }
  }
}

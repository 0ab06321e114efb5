/** Every operation of the TCP thread keeps its connections, tables and pool consistent. */
module TcpSafety {
  import opened Options
  import opened Chains
  import opened Connections
  import opened Tcp

  ghost predicate Live(t: Thread, id: nat)
  {
    id < |t.conns| && t.conns[id].sock != NO_SOCKET
  }

  /** The invariant does not depend on the poller or the clock. */
  lemma SameCore(cfg: Config, t: Thread, u: Thread, held: int)
    requires Inv(cfg, t, held) && u.conns == t.conns && u.free == t.free && u.first == t.first && u.second == t.second
    requires u.newIsFirst == t.newIsFirst && u.sweeps == t.sweeps
    ensures Inv(cfg, u, held)
  {
  }

  // ---- One connection changes ----

  lemma PutPool(t: Thread, id: nat, c: Connection)
    requires PoolOk(t) && id < |t.conns| && (c.sock == NO_SOCKET <==> t.conns[id].sock == NO_SOCKET)
    ensures PoolOk(Put(t, id, c))
  {
  }

  lemma PutTable(t: Thread, id: nat, c: Connection, m: map<int, nat>, table: int, held: int)
    requires TableOk(t, m, table, held) && id < |t.conns| && c.sock == t.conns[id].sock
    requires (c.table == t.conns[id].table || c.sock == NO_SOCKET)
    ensures TableOk(Put(t, id, c), m, table, held)
  {
  }

  /** A live connection moves on. */
  lemma PutKeeps(cfg: Config, t: Thread, id: nat, c: Connection)
    requires Inv(cfg, t, NONE) && Live(t, id) && Later(t.conns[id], c) && ConnectionOk(cfg.service, c)
    ensures Inv(cfg, Put(t, id, c), NONE)
  {
    hide ConnectionOk, Distinct, PoolOk, TableOk;
    var u := Put(t, id, c);
    PutPool(t, id, c);
    PutTable(t, id, c, t.first, 1, NONE);
    PutTable(t, id, c, t.second, 2, NONE);
    forall j | 0 <= j < |u.conns| && j != NONE && u.conns[j].sock != NO_SOCKET ensures LiveOk(cfg, u, j) {
      assert LiveOk(cfg, t, j);
    }
  }

  /** What a connection in the pool remembers does not matter. */
  lemma PutFree(cfg: Config, t: Thread, id: nat, c: Connection)
    requires Inv(cfg, t, NONE) && id < |t.conns| && !Live(t, id) && c.sock == NO_SOCKET
    ensures Inv(cfg, Put(t, id, c), NONE)
  {
  }

  // ---- Closing ----

  /** A connection that is not in the pool is released into it, once. */
  lemma ClosePool(t: Thread, id: nat)
    requires PoolOk(t) && Live(t, id)
    ensures PoolOk(Close(t, id)) && id !in t.free
  {
  }

  /** Every table loses the closed connection and nothing else. */
  lemma CloseTable(t: Thread, id: nat, m: map<int, nat>, table: int, held: int)
    requires Live(t, id) && TableOk(t, m, table, held)
    requires t.conns[id].table == table ==> held == id || (t.conns[id].sock in m && m[t.conns[id].sock] == id)
    ensures TableOk(Close(t, id), Without(m, t.conns[id].table == table, t.conns[id].sock), table, NONE)
  {
  }

  lemma CloseOthers(cfg: Config, t: Thread, id: nat, held: int, j: nat)
    requires Inv(cfg, t, held) && Live(t, id) && Live(t, j) && j != id && j != held
    requires held == id ==> Holds(t, id)
    requires held != id ==> Seated(t, id)
    ensures LiveOk(cfg, Close(t, id), j)
  {
    hide ConnectionOk, Distinct, PoolOk;
    assert LiveOk(cfg, t, j);
    var c, d := t.conns[id], t.conns[j];
    assert d.sock != c.sock;
  }

  lemma CloseKeeps(cfg: Config, t: Thread, id: nat, held: int)
    requires Inv(cfg, t, held) && Live(t, id) && (held == NONE || held == id)
    requires held == id ==> Holds(t, id)
    ensures Inv(cfg, Close(t, id), NONE)
  {
    hide ConnectionOk, Distinct, PoolOk, TableOk;
    var u, c := Close(t, id), t.conns[id];
    if held == NONE {
      assert LiveOk(cfg, t, id);
    }
    ClosePool(t, id);
    CloseTable(t, id, t.first, 1, held);
    CloseTable(t, id, t.second, 2, held);
    forall j | 0 <= j < |u.conns| && j != NONE && u.conns[j].sock != NO_SOCKET ensures LiveOk(cfg, u, j) {
      CloseOthers(cfg, t, id, held, j);
    }
  }

  lemma SettleKeeps(cfg: Config, t: Thread, id: nat, c: Connection, kept: bool)
    requires Inv(cfg, t, NONE) && Live(t, id) && Later(t.conns[id], c) && (kept ==> ConnectionOk(cfg.service, c))
    ensures Inv(cfg, Settle(t, id, c, kept), NONE)
  {
    hide ConnectionOk, Distinct, PoolOk, TableOk, Inv;
    if kept {
      PutKeeps(cfg, t, id, c);
    } else {
      var u := Close(t, id);
      CloseKeeps(cfg, t, id, NONE);
      PutFree(cfg, u, id, c.(sock := NO_SOCKET));
      assert Close(Put(t, id, c), id) == Put(u, id, c.(sock := NO_SOCKET)) by {
        assert t.conns[id := c][id := c.(sock := NO_SOCKET)] == u.conns[id := c.(sock := NO_SOCKET)];
      }
    }
  }

  // ---- The pool ----

  lemma PushKeeps(cfg: Config, t: Thread)
    requires Inv(cfg, t, NONE)
    ensures Inv(cfg, t.(conns := t.conns + [BLANK], free := [|t.conns|] + t.free), NONE)
  {
  }

  lemma {:induction false} GrowKeeps(cfg: Config, t: Thread, n: nat)
    requires Inv(cfg, t, NONE)
    ensures Inv(cfg, Grow(t, n), NONE) && Grow(t, n) == t.(conns := Grow(t, n).conns, free := Grow(t, n).free)
    ensures |t.conns| <= |Grow(t, n).conns| && Grow(t, n).conns[..|t.conns|] == t.conns
    decreases n
  {
    hide Inv;
    if n > 0 {
      var u := t.(conns := t.conns + [BLANK], free := [|t.conns|] + t.free);
      PushKeeps(cfg, t);
      GrowKeeps(cfg, u, n - 1);
      assert u.conns[..|t.conns|] == t.conns;
    }
  }

  lemma PopPool(t: Thread, c: Connection)
    requires PoolOk(t) && t.free != [] && c.sock != NO_SOCKET
    ensures t.free[0] < |t.conns| && t.conns[t.free[0]].sock == NO_SOCKET
    ensures PoolOk(Put(t.(free := t.free[1..]), t.free[0], c))
  {
  }

  lemma PopKeeps(cfg: Config, t: Thread, c: Connection)
    requires Inv(cfg, t, NONE) && t.free != [] && c.sock != NO_SOCKET && c.sock !in t.first && c.sock !in t.second
    ensures var u := Put(t.(free := t.free[1..]), t.free[0], c); Inv(cfg, u, t.free[0]) && Holds(u, t.free[0])
  {
    hide ConnectionOk, Distinct, PoolOk;
    var id := t.free[0];
    var u := Put(t.(free := t.free[1..]), id, c);
    PopPool(t, c);
    forall j | 0 <= j < |u.conns| && j != id && u.conns[j].sock != NO_SOCKET ensures LiveOk(cfg, u, j) {
      assert LiveOk(cfg, t, j);
    }
    assert forall m, k, s :: s in m && Owns(t, m, k, s, NONE) ==> Owns(u, m, k, s, id);
  }

  /** A new connection: ready to receive, in no table yet. */
  ghost predicate Newborn(t: Thread, id: nat, s: int, peer: Peer)
  {
    && Holds(t, id) && t.conns[id].sock == s && t.conns[id].peer == peer && t.conns[id].phase == Receiving
    && t.conns[id].reader == Incremental.Fresh(true) && t.conns[id].sent == []
    && t.conns[id].tx == 0 && t.conns[id].born == t.sweeps
  }

  lemma GetKeeps(cfg: Config, t: Thread, s: int, peer: Peer, memory: nat)
    requires Inv(cfg, t, NONE) && s != NO_SOCKET && s !in t.first && s !in t.second
    ensures var (u, got) := GetConnection(t, s, peer, memory);
            && u == t.(conns := u.conns, free := u.free)
            && (got.None? ==> Inv(cfg, u, NONE))
            && (got.Some? ==> Inv(cfg, u, got.value) && Newborn(u, got.value, s, peer))
  {
    hide Inv, Grow;
    var n := Min(memory, GROWTH);
    GrowKeeps(cfg, t, n);
    var u := if t.free == [] then Grow(t, n) else t;
    if u.free != [] {
      var id := u.free[0];
      var c := At(u, id).(phase := Receiving, sock := s, peer := peer, reader := Incremental.Fresh(true), sent := [],
                          tx := 0, table := -1, born := t.sweeps);
      PopKeeps(cfg, u, c);
    }
  }

  lemma NewbornOk(cfg: Config, t: Thread, id: nat, s: int, peer: Peer, table: int)
    requires Newborn(t, id, s, peer)
    ensures ConnectionOk(cfg.service, t.conns[id].(table := table))
  {
  }

  // ---- Accepting ----

  lemma InsertTables(t: Thread, id: nat, m: map<int, nat>, table: int)
    requires id < |t.conns| && t.conns[id].sock != NO_SOCKET && t.conns[id].table == table
    requires TableOk(t, m, table, id)
    ensures TableOk(t, m[t.conns[id].sock := id], table, NONE)
  {
  }

  lemma ForgetHeld(t: Thread, m: map<int, nat>, table: int, id: nat)
    requires TableOk(t, m, table, id)
    ensures TableOk(t, m, table, NONE)
  {
  }

  lemma NameTable(cfg: Config, t: Thread, id: nat, table: int)
    requires Inv(cfg, t, id) && Holds(t, id)
    ensures var u := Put(t, id, t.conns[id].(table := table)); Inv(cfg, u, id) && Holds(u, id)
  {
  }

  lemma InsertKeeps(cfg: Config, t: Thread, id: nat)
    requires Inv(cfg, t, id) && Holds(t, id) && t.conns[id].table == TableId(t) && t.conns[id].born == t.sweeps
    requires ConnectionOk(cfg.service, t.conns[id])
    ensures Inv(cfg, InsertNew(t, t.conns[id].sock, id), NONE)
  {
    hide ConnectionOk, Distinct, PoolOk, TableOk;
    var u, s := InsertNew(t, t.conns[id].sock, id), t.conns[id].sock;
    if t.newIsFirst {
      InsertTables(t, id, t.first, 1);
      ForgetHeld(t, t.second, 2, id);
    } else {
      InsertTables(t, id, t.second, 2);
      ForgetHeld(t, t.first, 1, id);
    }
    SameTables(t, u, u.first, 1);
    SameTables(t, u, u.second, 2);
    SamePool(t, u);
    forall j | 0 <= j < |u.conns| && j != NONE && u.conns[j].sock != NO_SOCKET ensures LiveOk(cfg, u, j) {
      InsertOthers(cfg, t, id, j);
    }
  }

  lemma SameTables(t: Thread, u: Thread, m: map<int, nat>, table: int)
    requires TableOk(t, m, table, NONE) && u.conns == t.conns
    ensures TableOk(u, m, table, NONE)
  {
  }

  lemma SamePool(t: Thread, u: Thread)
    requires PoolOk(t) && u.conns == t.conns && u.free == t.free
    ensures PoolOk(u)
  {
  }

  lemma InsertOthers(cfg: Config, t: Thread, id: nat, j: nat)
    requires Inv(cfg, t, id) && Holds(t, id) && t.conns[id].table == TableId(t) && t.conns[id].born == t.sweeps
    requires ConnectionOk(cfg.service, t.conns[id]) && Live(t, j)
    ensures LiveOk(cfg, InsertNew(t, t.conns[id].sock, id), j)
  {
  }

  lemma EnterKeeps(cfg: Config, t: Thread, id: nat, s: int, peer: Peer)
    requires Inv(cfg, t, id) && Newborn(t, id, s, peer)
    ensures var (u, got) := Enter(cfg, t, id);
            Inv(cfg, u, NONE) && (got.Some? ==> got.value == id && Live(u, id))
  {
    hide ConnectionOk, Inv;
    NameTable(cfg, t, id, TableId(t));
    NewbornOk(cfg, t, id, s, peer, TableId(t));
    var u := Put(t, id, t.conns[id].(table := TableId(t)));
    if |NewTable(u)| >= cfg.max {
      CloseKeeps(cfg, u, id, id);
    } else {
      InsertKeeps(cfg, u, id);
    }
  }

  /** accept gives a socket that nobody here uses. */
  ghost predicate Unused(cfg: Config, t: Thread, a: Acceptance)
  {
    a.Accepted? ==>
      && a.sock >= 0 && a.sock !in t.first && a.sock !in t.second
      && a.sock !in cfg.listen && a.sock != cfg.pipe
  }

  lemma AcceptKeeps(cfg: Config, t: Thread, a: Acceptance, p: Poller)
    requires Inv(cfg, t, NONE) && Unused(cfg, t, a)
    ensures var (u, got) := AcceptConnection(cfg, t, a, p);
            Inv(cfg, u, NONE) && (got.Some? ==> Live(u, got.value))
  {
    hide Inv, GetConnection, Enter;
    if a.Accepted? {
      GetKeeps(cfg, t, a.sock, a.peer, a.memory);
      var (u, got) := GetConnection(t, a.sock, a.peer, a.memory);
      if got.Some? {
        if !a.nonBlocking || !AddOk(u, p, a.sock) {
          CloseKeeps(cfg, u, got.value, got.value);
        } else {
          var v := u.(registered := u.registered + {a.sock});
          SameCore(cfg, u, v, got.value);
          EnterKeeps(cfg, v, got.value, a.sock, a.peer);
        }
      }
    }
  }

  // ---- Serving ----

  lemma LiveIsOk(cfg: Config, t: Thread, id: nat)
    requires Inv(cfg, t, NONE) && Live(t, id)
    ensures ConnectionOk(cfg.service, t.conns[id]) && Seated(t, id)
  {
  }

  lemma ServeKeeps(cfg: Config, t: Thread, id: nat, p: Poller, io: Io)
    requires Inv(cfg, t, NONE) && Live(t, id)
    ensures Inv(cfg, Serve(cfg, t, id, p, io), NONE)
  {
    hide Inv, ConnectionOk, Handle, Settle, Later;
    LiveIsOk(cfg, t, id);
    HandleOk(cfg.service, t.conns[id], IoOf(t, p, t.conns[id].sock, io));
    var (c, kept) := Handle(cfg.service, t.conns[id], IoOf(t, p, t.conns[id].sock, io));
    SettleKeeps(cfg, t, id, c, kept);
  }

  lemma FoundIsLive(cfg: Config, t: Thread, s: int)
    requires Inv(cfg, t, NONE) && FindConnection(t, s).Some?
    ensures Live(t, FindConnection(t, s).value) && t.conns[FindConnection(t, s).value].sock == s
  {
    hide ConnectionOk, PoolOk;
    if s in t.first {
      assert Owns(t, t.first, 1, s, NONE);
    } else {
      assert Owns(t, t.second, 2, s, NONE);
    }
  }

  lemma OnEventKeeps(cfg: Config, t: Thread, s: int, i: Input)
    requires Inv(cfg, t, NONE) && Unused(cfg, t, i.acceptance)
    ensures Inv(cfg, OnEvent(cfg, t, s, i), NONE)
  {
    hide Inv, AcceptConnection, Serve, FindConnection, Unused;
    if s != NO_SOCKET && s in cfg.listen {
      AcceptKeeps(cfg, t, i.acceptance, i.poller);
      var (u, got) := AcceptConnection(cfg, t, i.acceptance, i.poller);
      if got.Some? {
        ServeKeeps(cfg, u, got.value, i.poller, i.io);
      }
    } else if FindConnection(t, s).Some? {
      FoundIsLive(cfg, t, s);
      ServeKeeps(cfg, t, FindConnection(t, s).value, i.poller, i.io);
    }
  }

  // ---- Sweeping ----

  /** The order in which an index lists the sockets of a table. */
  ghost predicate Lists(order: seq<int>, m: map<int, nat>)
  {
    Distinct(order) && (forall s :: s in m <==> s in order)
  }

  function TableOf(t: Thread, inOld: bool): map<int, nat>
  {
    if inOld then OldTable(t) else NewTable(t)
  }

  lemma TableIsLive(cfg: Config, t: Thread, inOld: bool, s: int)
    requires Inv(cfg, t, NONE) && s in TableOf(t, inOld)
    ensures Live(t, TableOf(t, inOld)[s])
  {
  }

  lemma SomeKey<K>(m: map<K, nat>) returns (s: K)
    requires |m| != 0
    ensures s in m
  {
    var keys := m.Keys;
    assert |keys| != 0;
    s :| s in keys;
  }

  lemma CloseOne(cfg: Config, t: Thread, inOld: bool, s: int)
    requires Inv(cfg, t, NONE) && s in TableOf(t, inOld)
    ensures var u := Close(t, TableOf(t, inOld)[s]);
            && Inv(cfg, u, NONE) && u.newIsFirst == t.newIsFirst && u.sweeps == t.sweeps
            && TableOf(u, inOld) == TableOf(t, inOld) - {s} && TableOf(u, !inOld) == TableOf(t, !inOld)
  {
    hide ConnectionOk, PoolOk;
    var table := if inOld == t.newIsFirst then 2 else 1;
    assert Owns(t, TableOf(t, inOld), table, s, NONE);
    CloseKeeps(cfg, t, TableOf(t, inOld)[s], NONE);
  }

  lemma ListsRest(order: seq<int>, m: map<int, nat>)
    requires Lists(order, m) && order != []
    ensures order[0] in m && Lists(order[1..], m - {order[0]})
  {
    forall s ensures s in m - {order[0]} <==> s in order[1..] {
      assert s in order <==> s == order[0] || s in order[1..] by {
        assert order == [order[0]] + order[1..];
      }
      if s in order[1..] {
        var i :| 0 <= i < |order| - 1 && order[1..][i] == s;
        assert order[i + 1] == s && order[0] != order[i + 1];
      }
    }
  }

  /** Closing everything an index lists empties the table and leaves the other one alone. */
  lemma {:induction false} CloseAllEmpties(cfg: Config, t: Thread, inOld: bool, order: seq<int>)
    requires Inv(cfg, t, NONE) && Lists(order, TableOf(t, inOld))
    ensures var u := CloseAll(t, inOld, order);
            && Inv(cfg, u, NONE) && u.newIsFirst == t.newIsFirst && u.sweeps == t.sweeps
            && TableOf(u, inOld) == map[] && TableOf(u, !inOld) == TableOf(t, !inOld)
    decreases |order|
  {
    hide Inv, Close, Lists;
    if order == [] {
      EmptyList(TableOf(t, inOld));
    } else {
      ListsRest(order, TableOf(t, inOld));
      CloseOne(cfg, t, inOld, order[0]);
      CloseAllEmpties(cfg, Close(t, TableOf(t, inOld)[order[0]]), inOld, order[1..]);
    }
  }

  lemma EmptyList(m: map<int, nat>)
    requires Lists([], m)
    ensures m == map[]
  {
    assert forall s :: s !in m;
  }

  lemma SwapKeeps(cfg: Config, t: Thread)
    requires Inv(cfg, t, NONE) && OldTable(t) == map[]
    ensures Inv(cfg, SwapTables(t), NONE)
  {
    hide ConnectionOk, PoolOk, TableOk;
    var u := SwapTables(t);
    SamePool(t, u);
    SameTables(t, u, t.first, 1);
    SameTables(t, u, t.second, 2);
    forall j | 0 <= j < |u.conns| && j != NONE && u.conns[j].sock != NO_SOCKET ensures LiveOk(cfg, u, j) {
      assert LiveOk(cfg, t, j);
    }
  }

  ghost predicate SweepsAll(t: Thread, now: int, order: seq<int>)
  {
    now - t.lastSweep >= SWEEP_SECONDS ==> Lists(order, OldTable(t))
  }

  lemma SweepKeeps(cfg: Config, t: Thread, now: int, later: int, order: seq<int>)
    requires Inv(cfg, t, NONE) && SweepsAll(t, now, order)
    ensures Inv(cfg, Sweep(t, now, later, order), NONE)
  {
    hide Inv, Lists, CloseAll;
    if now - t.lastSweep >= SWEEP_SECONDS {
      CloseAllEmpties(cfg, t, true, order);
      var u := CloseAll(t, true, order);
      SameCore(cfg, u, u.(lastSweep := later), NONE);
      SwapKeeps(cfg, u.(lastSweep := later));
    }
  }

  // ---- Listening ----

  lemma {:induction false} ListenFrame(t: Thread, listen: seq<int>, enable: bool, p: Poller)
    ensures var u := SetListenFrom(t, listen, enable, p); u == t.(registered := u.registered, listening := u.listening)
    decreases |listen|
  {
    hide AddOk, RemoveOk;
    if listen != [] {
      if listen[0] == NO_SOCKET {
        ListenFrame(t, listen[1..], enable, p);
      } else if enable {
        ListenFrame(t.(registered := t.registered + {listen[0]}), listen[1..], enable, p);
      } else {
        ListenFrame(t.(registered := t.registered - {listen[0]}), listen[1..], enable, p);
      }
    }
  }

  lemma ListenedFrame(cfg: Config, t: Thread, p: Poller)
    ensures var u := Listened(cfg, t, p); u == t.(registered := u.registered, listening := u.listening)
  {
    hide SetListenFrom, AtMax;
    ListenFrame(t, cfg.listen, !AtMax(cfg, t), p);
  }

  lemma ListenKeeps(cfg: Config, t: Thread, p: Poller)
    requires Inv(cfg, t, NONE)
    ensures Inv(cfg, Listened(cfg, t, p), NONE)
  {
    hide Inv, Listened;
    ListenedFrame(cfg, t, p);
    SameCore(cfg, t, Listened(cfg, t, p), NONE);
  }

  // ---- Turns ----

  /** What the operating system and the table's index promise for one turn. */
  ghost predicate Possible(cfg: Config, t: Thread, i: Input)
  {
    && Unused(cfg, t, i.acceptance)
    && i.event != Some(cfg.pipe)
    && SweepsAll(Handled(cfg, t, i), i.now, i.order)
  }

  lemma HandledKeeps(cfg: Config, t: Thread, i: Input)
    requires Inv(cfg, t, NONE) && Unused(cfg, t, i.acceptance)
    ensures Inv(cfg, Handled(cfg, t, i), NONE)
  {
    hide Inv, Listened, OnEvent;
    ListenKeeps(cfg, t, i.poller);
    ListenedFrame(cfg, t, i.poller);
    if i.event.Some? {
      OnEventKeeps(cfg, Listened(cfg, t, i.poller), i.event.value, i);
    }
  }

  lemma TurnKeeps(cfg: Config, t: Thread, i: Input)
    requires Inv(cfg, t, NONE) && Possible(cfg, t, i)
    ensures Inv(cfg, Turn(cfg, t, i), NONE)
  {
    hide Inv, Handled, Sweep, Unused;
    HandledKeeps(cfg, t, i);
    SweepKeeps(cfg, Handled(cfg, t, i), i.now, i.later, i.order);
  }

  lemma StartOk(cfg: Config, now: int)
    ensures Inv(cfg, Start(cfg, now), NONE)
  {
  }
}

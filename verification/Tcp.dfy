/** CTCPStunThread as a value: its pool of connections, the two tables from socket to connection that
    a sweep swaps, and the sockets it has registered with the poller. A connection is its position in
    `conns`, which holds every connection ever allocated. */
module Tcp {
  import opened Options
  import opened Chains
  import opened Connections

  datatype Config = Config(listen: seq<int>, pipe: int, max: nat, service: Service)

  datatype Thread = Thread(conns: seq<Connection>, free: seq<nat>, first: map<int, nat>, second: map<int, nat>,
                           newIsFirst: bool, lastSweep: int, sweeps: nat, registered: set<int>, listening: bool)

  const SWEEP_SECONDS: int := 60
  const GROWTH: nat := 50

  function NewTable(t: Thread): map<int, nat> { if t.newIsFirst then t.first else t.second }

  function OldTable(t: Thread): map<int, nat> { if t.newIsFirst then t.second else t.first }

  function At(t: Thread, id: nat): Connection { if id < |t.conns| then t.conns[id] else BLANK }

  function Put(t: Thread, id: nat, c: Connection): Thread
  {
    if id < |t.conns| then t.(conns := t.conns[id := c]) else t
  }

  // ---- The poller: any that answers as it likes, or one that fails only for good reason ----

  datatype Poller = Exact | Any(add: int -> bool, remove: int -> bool, change: (int, bool) -> bool)

  predicate AddOk(t: Thread, p: Poller, s: int) { if p.Exact? then s !in t.registered else p.add(s) }

  predicate RemoveOk(t: Thread, p: Poller, s: int) { if p.Exact? then s in t.registered else p.remove(s) }

  predicate ChangeOk(t: Thread, p: Poller, s: int, write: bool)
  {
    if p.Exact? then s in t.registered else p.change(s, write)
  }

  // ---- The pool ----

  function Grow(t: Thread, n: nat): Thread
    decreases n
  {
    if n == 0 then t else Grow(t.(conns := t.conns + [BLANK], free := [|t.conns|] + t.free), n - 1)
  }

  /** `memory` is how many connections could be allocated. */
  function GetConnection(t: Thread, sock: int, peer: Peer, memory: nat): (Thread, Option<nat>)
  {
    var u := if t.free == [] then Grow(t, Min(memory, GROWTH)) else t;
    if u.free == [] then (u, None)
    else
      var id := u.free[0];
      var c := At(u, id).(phase := Receiving, sock := sock, peer := peer, reader := Incremental.Fresh(true),
                          sent := [], tx := 0, table := -1, born := t.sweeps);
      (Put(u.(free := u.free[1..]), id, c), Some(id))
  }

  // ---- Closing ----

  function Without(m: map<int, nat>, here: bool, s: int): map<int, nat> { if here then m - {s} else m }

  /** Unregisters, closes the socket, takes the connection out of the table it names, and releases it. */
  function Close(t: Thread, id: nat): Thread
  {
    var c := At(t, id);
    Put(t, id, c.(sock := NO_SOCKET)).(
      registered := t.registered - {c.sock},
      first := Without(t.first, c.table == 1, c.sock),
      second := Without(t.second, c.table == 2, c.sock),
      free := [id] + t.free)
  }

  function Settle(t: Thread, id: nat, c: Connection, kept: bool): Thread
  {
    if kept then Put(t, id, c) else Close(Put(t, id, c), id)
  }

  // ---- Events ----

  function IoOf(t: Thread, p: Poller, s: int, io: Io): Io
  {
    io.(toWrite := ChangeOk(t, p, s, true), toRead := ChangeOk(t, p, s, false))
  }

  function Serve(cfg: Config, t: Thread, id: nat, p: Poller, io: Io): Thread
  {
    var (c, kept) := Handle(cfg.service, At(t, id), IoOf(t, p, At(t, id).sock, io));
    Settle(t, id, c, kept)
  }

  function FindConnection(t: Thread, s: int): Option<nat>
  {
    if s in NewTable(t) then Some(NewTable(t)[s]) else if s in OldTable(t) then Some(OldTable(t)[s]) else None
  }

  /** Results of accept, of making the socket non-blocking and of allocating. */
  datatype Acceptance = Denied | Accepted(sock: int, peer: Peer, memory: nat, nonBlocking: bool)

  function TableId(t: Thread): int { if t.newIsFirst then 1 else 2 }

  function InsertNew(t: Thread, s: int, id: nat): Thread
  {
    if t.newIsFirst then t.(first := t.first[s := id]) else t.(second := t.second[s := id])
  }

  /** The new table takes at most `max` connections. */
  function Enter(cfg: Config, t: Thread, id: nat): (Thread, Option<nat>)
  {
    var u := Put(t, id, At(t, id).(table := TableId(t)));
    if |NewTable(u)| >= cfg.max then (Close(u, id), None) else (InsertNew(u, At(t, id).sock, id), Some(id))
  }

  function AcceptConnection(cfg: Config, t: Thread, a: Acceptance, p: Poller): (Thread, Option<nat>)
  {
    if a.Denied? then (t, None)
    else
      var (u, got) := GetConnection(t, a.sock, a.peer, a.memory);
      if got.None? then (u, None)
      else if !a.nonBlocking || !AddOk(u, p, a.sock) then (Close(u, got.value), None)
      else Enter(cfg, u.(registered := u.registered + {a.sock}), got.value)
  }

  // ---- Sweeping; `order` is how the table's index lists its sockets ----

  function CloseAll(t: Thread, inOld: bool, order: seq<int>): Thread
    decreases |order|
  {
    if order == [] then t
    else
      var m := if inOld then OldTable(t) else NewTable(t);
      CloseAll(if order[0] in m then Close(t, m[order[0]]) else t, inOld, order[1..])
  }

  function SwapTables(t: Thread): Thread { t.(newIsFirst := !t.newIsFirst, sweeps := t.sweeps + 1) }

  function Sweep(t: Thread, now: int, later: int, order: seq<int>): Thread
  {
    if now - t.lastSweep >= SWEEP_SECONDS then SwapTables(CloseAll(t, true, order).(lastSweep := later)) else t
  }

  // ---- Listening ----

  predicate AtMax(cfg: Config, t: Thread) { |NewTable(t)| + |OldTable(t)| >= cfg.max }

  /** Stops at the first socket the poller refuses. */
  function SetListenFrom(t: Thread, listen: seq<int>, enable: bool, p: Poller): Thread
    decreases |listen|
  {
    if listen == [] then t.(listening := enable)
    else if listen[0] == NO_SOCKET then SetListenFrom(t, listen[1..], enable, p)
    else if enable then
      if !AddOk(t, p, listen[0]) then t
      else SetListenFrom(t.(registered := t.registered + {listen[0]}), listen[1..], enable, p)
    else
      if !RemoveOk(t, p, listen[0]) then t
      else SetListenFrom(t.(registered := t.registered - {listen[0]}), listen[1..], enable, p)
  }

  function SetListen(cfg: Config, t: Thread, enable: bool, p: Poller): Thread
  {
    if enable == t.listening then t else SetListenFrom(t, cfg.listen, enable, p)
  }

  // ---- One turn of the loop, and leaving it ----

  /** What the environment does during one turn. */
  datatype Input = Input(poller: Poller, event: Option<int>, io: Io, acceptance: Acceptance, now: int, later: int,
                         order: seq<int>)

  function OnEvent(cfg: Config, t: Thread, s: int, i: Input): Thread
  {
    if s != NO_SOCKET && s in cfg.listen then
      var (u, got) := AcceptConnection(cfg, t, i.acceptance, i.poller);
      if got.None? then u else Serve(cfg, u, got.value, i.poller, i.io)
    else
      var found := FindConnection(t, s);
      if found.None? then t else Serve(cfg, t, found.value, i.poller, i.io)
  }

  function Listened(cfg: Config, t: Thread, p: Poller): Thread
  {
    SetListen(cfg, t, !AtMax(cfg, t), p)
  }

  function Handled(cfg: Config, t: Thread, i: Input): Thread
  {
    var u := Listened(cfg, t, i.poller);
    if i.event.None? then u else OnEvent(cfg, u, i.event.value, i)
  }

  function Turn(cfg: Config, t: Thread, i: Input): Thread
  {
    Sweep(Handled(cfg, t, i), i.now, i.later, i.order)
  }

  function Cleanup(t: Thread, oldOrder: seq<int>, newOrder: seq<int>): Thread
  {
    CloseAll(CloseAll(t, true, oldOrder), false, newOrder)
  }

  /** Before the first turn: nothing accepted, listening. */
  function Start(cfg: Config, now: int): Thread
  {
    Thread([], [], map[], map[], true, now, 0, (set s | s in cfg.listen && s != NO_SOCKET) + {cfg.pipe}, true)
  }

  // ---- What every operation keeps ----

  /** Distinct entries, and exactly the connections without a socket. */
  ghost predicate PoolOk(t: Thread)
  {
    && Distinct(t.free)
    && (forall i :: 0 <= i < |t.free| ==> t.free[i] < |t.conns|)
    && (forall id :: 0 <= id < |t.conns| ==> (id in t.free <==> t.conns[id].sock == NO_SOCKET))
  }

  /** Under its own socket in the table it names. */
  ghost predicate Seated(t: Thread, id: nat)
    requires id < |t.conns|
  {
    var c := t.conns[id];
    || (c.table == 1 && c.sock in t.first && t.first[c.sock] == id)
    || (c.table == 2 && c.sock in t.second && t.second[c.sock] == id)
  }

  /** No older than one sweep. */
  ghost predicate Recent(t: Thread, c: Connection)
  {
    if c.table == TableId(t) then c.born == t.sweeps else c.born + 1 == t.sweeps
  }

  ghost predicate LiveOk(cfg: Config, t: Thread, id: nat)
    requires id < |t.conns|
  {
    Seated(t, id) && Recent(t, t.conns[id]) && ConnectionOk(cfg.service, t.conns[id])
  }

  ghost predicate Owns(t: Thread, m: map<int, nat>, table: int, s: int, held: int)
    requires s in m
  {
    s != NO_SOCKET && m[s] < |t.conns| && m[s] != held && t.conns[m[s]].sock == s && t.conns[m[s]].table == table
  }

  ghost predicate TableOk(t: Thread, m: map<int, nat>, table: int, held: int)
  {
    forall s :: s in m ==> Owns(t, m, table, s, held)
  }

  /** `held` is a connection taken from the pool and not yet in a table, or -1. */
  ghost predicate Inv(cfg: Config, t: Thread, held: int)
  {
    && PoolOk(t)
    && (forall id :: 0 <= id < |t.conns| && id != held && t.conns[id].sock != NO_SOCKET ==> LiveOk(cfg, t, id))
    && TableOk(t, t.first, 1, held) && TableOk(t, t.second, 2, held)
    && t.first.Keys !! t.second.Keys
  }

  const NONE: int := -1

  ghost predicate Holds(t: Thread, id: nat)
  {
    && id < |t.conns| && t.conns[id].sock != NO_SOCKET
    && t.conns[id].sock !in t.first && t.conns[id].sock !in t.second
  }
}

/** The TCP thread over CPoll: every poller call of the thread is the call of CPoll, and its answer is
    CPoll's answer. */
module TcpOverPoll {
  import opened Options
  import opened Connections
  import opened Tcp
  import opened TcpSafety
  import opened TcpRuns
  import opened TcpBounds
  import Poll
  import PollRuns

  datatype Joint = Joint(t: Thread, p: Poll.Poller)

  const CLIENT_READ: set<Poll.Flag> := {Poll.Read, Poll.RdHup}
  const CLIENT_WRITE: set<Poll.Flag> := {Poll.Write}
  const LISTEN_SET: set<Poll.Flag> := {Poll.Read}

  // ---- The thread's operations, with the poller's calls ----

  function SetListenFromJoint(x: Joint, listen: seq<int>, enable: bool): Joint
    decreases |listen|
  {
    if listen == [] then x.(t := x.t.(listening := enable))
    else if listen[0] == NO_SOCKET then SetListenFromJoint(x, listen[1..], enable)
    else if enable then
      var (q, ok) := Poll.Add(x.p, listen[0], LISTEN_SET);
      var t := x.t.(registered := x.t.registered + {listen[0]});
      if ok then SetListenFromJoint(Joint(t, q), listen[1..], enable) else Joint(x.t, q)
    else
      var (q, ok) := Poll.Remove(x.p, listen[0]);
      var t := x.t.(registered := x.t.registered - {listen[0]});
      if ok then SetListenFromJoint(Joint(t, q), listen[1..], enable) else Joint(x.t, q)
  }

  function ListenJoint(cfg: Config, x: Joint): Joint
  {
    var enable := !AtMax(cfg, x.t);
    if enable == x.t.listening then x else SetListenFromJoint(x, cfg.listen, enable)
  }

  function CloseJoint(x: Joint, id: nat): Joint
  {
    Joint(Close(x.t, id), Poll.Remove(x.p, At(x.t, id).sock).0)
  }

  /** The poller after a connection went from `c` to `d`: asked for write events when it begins to answer
      and for read events when it has answered. */
  function Refiled(p: Poll.Poller, c: Connection, d: Connection): Poll.Poller
  {
    var q := if c.phase == Receiving && d.phase != Receiving then Poll.ChangeEventSet(p, c.sock, CLIENT_WRITE).0 else p;
    if c.phase != Closing && d.phase == Closing then Poll.ChangeEventSet(q, c.sock, CLIENT_READ).0 else q
  }

  function ServeJoint(cfg: Config, x: Joint, id: nat, io: Io): Joint
  {
    var c := At(x.t, id);
    var (q, toWrite) := Poll.ChangeEventSet(x.p, c.sock, CLIENT_WRITE);
    var toRead := Poll.ChangeEventSet(if c.phase == Receiving then q else x.p, c.sock, CLIENT_READ).1;
    var (d, kept) := Handle(cfg.service, c, io.(toWrite := toWrite, toRead := toRead));
    var y := Joint(Put(x.t, id, d), Refiled(x.p, c, d));
    if kept then y else CloseJoint(y, id)
  }

  function AcceptJoint(cfg: Config, x: Joint, a: Acceptance): (Joint, Option<nat>)
  {
    if a.Denied? then (x, None)
    else
      var (u, got) := GetConnection(x.t, a.sock, a.peer, a.memory);
      if got.None? then (Joint(u, x.p), None)
      else if !a.nonBlocking then (CloseJoint(Joint(u, x.p), got.value), None)
      else
        var (q, ok) := Poll.Add(x.p, a.sock, CLIENT_READ);
        if !ok then (CloseJoint(Joint(u, q), got.value), None)
        else
          var v := u.(registered := u.registered + {a.sock});
          var w := Put(v, got.value, At(v, got.value).(table := TableId(v)));
          if |NewTable(w)| >= cfg.max then (CloseJoint(Joint(w, q), got.value), None)
          else (Joint(InsertNew(w, At(v, got.value).sock, got.value), q), got)
  }

  function CloseAllJoint(x: Joint, inOld: bool, order: seq<int>): Joint
    decreases |order|
  {
    if order == [] then x
    else
      var m := TableOf(x.t, inOld);
      CloseAllJoint(if order[0] in m then CloseJoint(x, m[order[0]]) else x, inOld, order[1..])
  }

  /** What the operating system, the clock and the table's index do during one turn. */
  datatype Surroundings = Surroundings(answer: Poll.Answer, io: Io, acceptance: Acceptance, now: int, later: int,
                                       order: seq<int>)

  function EventOf(o: Poll.Outcome): Option<int>
  {
    if o.Delivered? then Some(o.event.fd) else None
  }

  /** Listening as there is room, then waiting. */
  function WaitJoint(cfg: Config, x: Joint, s: Surroundings): (Joint, Option<int>)
  {
    var y := ListenJoint(cfg, x);
    var (q, o) := Poll.WaitForNextEvent(y.p, s.answer);
    (y.(p := q), EventOf(o))
  }

  function HandleJoint(cfg: Config, x: Joint, s: Surroundings): Joint
  {
    var (y, event) := WaitJoint(cfg, x, s);
    if event.None? then y
    else if event.value != NO_SOCKET && event.value in cfg.listen then
      var (z, got) := AcceptJoint(cfg, y, s.acceptance);
      if got.None? then z else ServeJoint(cfg, z, got.value, s.io)
    else
      var found := FindConnection(y.t, event.value);
      if found.None? then y else ServeJoint(cfg, y, found.value, s.io)
  }

  function TurnJoint(cfg: Config, x: Joint, s: Surroundings): Joint
  {
    var y := HandleJoint(cfg, x, s);
    if s.now - y.t.lastSweep >= SWEEP_SECONDS then
      var z := CloseAllJoint(y, true, s.order);
      z.(t := SwapTables(z.t.(lastSweep := s.later)))
    else y
  }

  // ---- The poller holds what the thread has registered ----

  ghost predicate Mirrors(t: Thread, p: Poll.Poller)
  {
    Poll.Inv(p) && p.table.Keys == t.registered
  }

  ghost predicate Joined(cfg: Config, x: Joint)
  {
    Mirrors(x.t, x.p) && x.p.capacity == cfg.max + 5
  }

  lemma MirrorsSize(t: Thread, p: Poll.Poller)
    requires Mirrors(t, p)
    ensures |p.fds| == |t.registered|
  {
    assert |p.table| == |p.table.Keys|;
  }

  /** CPoll's Add succeeds exactly for a socket not registered, when there is room for it. */
  lemma AddMirrors(t: Thread, p: Poll.Poller, s: int, flags: set<Poll.Flag>)
    requires Mirrors(t, p) && (s !in t.registered ==> |t.registered| < p.capacity)
    ensures Poll.Add(p, s, flags).1 <==> AddOk(t, Exact, s)
    ensures Mirrors(t.(registered := t.registered + {s}), Poll.Add(p, s, flags).0)
    ensures Poll.Add(p, s, flags).0.capacity == p.capacity
  {
    hide Poll.Pending, Poll.TableOk;
    MirrorsSize(t, p);
    if s !in t.registered {
      PollRuns.AddView(p, s, flags);
    } else {
      assert t.registered + {s} == t.registered;
    }
  }

  lemma RemoveMirrors(t: Thread, p: Poll.Poller, s: int)
    requires Mirrors(t, p)
    ensures Poll.Remove(p, s).1 <==> RemoveOk(t, Exact, s)
    ensures Mirrors(t.(registered := t.registered - {s}), Poll.Remove(p, s).0)
    ensures Poll.Remove(p, s).0.capacity == p.capacity
  {
    hide Poll.Pending, Poll.TableOk;
    PollRuns.RemoveView(p, s);
    if s in p.table {
      Poll.RemoveTable(p, s);
    }
  }

  lemma ChangeMirrors(t: Thread, p: Poll.Poller, s: int, flags: set<Poll.Flag>, write: bool)
    requires Mirrors(t, p)
    ensures Poll.ChangeEventSet(p, s, flags).1 <==> ChangeOk(t, Exact, s, write)
    ensures Mirrors(t, Poll.ChangeEventSet(p, s, flags).0)
    ensures Poll.ChangeEventSet(p, s, flags).0.capacity == p.capacity
  {
    hide Poll.Pending, Poll.TableOk;
    Poll.ChangeKeeps(p, s, flags);
  }

  /** Whatever poll() answers, only a socket the thread has registered is reported. */
  lemma WaitMirrors(t: Thread, p: Poll.Poller, answer: Poll.Answer)
    requires Mirrors(t, p)
    ensures var (q, o) := Poll.WaitForNextEvent(p, answer);
            Mirrors(t, q) && q.capacity == p.capacity && (o.Delivered? ==> o.event.fd in t.registered)
  {
    hide Poll.Pending, Poll.TableOk, Poll.WaitForNextEvent;
    Poll.WaitKeeps(p, answer);
    PollRuns.WaitSockets(p, answer);
    if Poll.WaitForNextEvent(p, answer).1.Delivered? {
      PollRuns.DeliveredIsRegistered(p, answer);
    }
  }

  // ---- Room for every socket ----

  lemma SubsetCount(a: set<int>, b: set<int>)
    requires a <= b
    ensures |a| <= |b|
  {
    assert b == a + (b - a);
  }

  lemma {:induction false} ElementsCount(s: seq<int>)
    ensures |Elements(s)| <= |s|
    decreases |s|
  {
    if s != [] {
      ElementsCount(s[1..]);
      assert Elements(s) == Elements(s[1..]) + {s[0]} by {
        assert s == [s[0]] + s[1..];
      }
    }
  }

  /** All sockets the thread could have registered at once. */
  ghost function Sockets(cfg: Config, t: Thread): set<int>
  {
    Elements(cfg.listen) + {cfg.pipe} + t.first.Keys + t.second.Keys
  }

  lemma SocketsCount(cfg: Config, t: Thread)
    requires ConfigOk(cfg)
    ensures |Sockets(cfg, t)| <= 5 + |t.first| + |t.second|
  {
    hide Elements, AllDifferent;
    ElementsCount(cfg.listen);
  }

  lemma OpenIsCounted(cfg: Config, t: Thread)
    requires Registry(cfg, t)
    ensures t.registered <= Sockets(cfg, t)
  {
    forall s | s in t.registered ensures s in Sockets(cfg, t) {
      assert IsOpen(cfg, t, s);
    }
  }

  /** A socket that is not registered yet, among at most `n` in all, leaves room. */
  lemma RoomFor(registered: set<int>, s: int, all: set<int>, n: nat)
    requires registered <= all && s in all && s !in registered && |all| <= n
    ensures |registered| < n
  {
    SubsetCount(registered + {s}, all);
  }

  // ---- Each operation is the one over an exact poller ----

  lemma {:induction false} ListenOnJoined(cfg: Config, x: Joint, listen: seq<int>, all: set<int>)
    requires Joined(cfg, x) && x.t.registered + Elements(listen) <= all && |all| <= cfg.max + 5
    ensures var y := SetListenFromJoint(x, listen, true);
            Joined(cfg, y) && y.t == SetListenFrom(x.t, listen, true, Exact)
    decreases |listen|
  {
    hide Poll.Inv, Poll.Add, Elements;
    if listen != [] {
      ElementsRest(listen);
      if listen[0] == NO_SOCKET {
        ListenOnJoined(cfg, x, listen[1..], all);
      } else {
        if listen[0] !in x.t.registered {
          RoomFor(x.t.registered, listen[0], all, cfg.max + 5);
        }
        AddMirrors(x.t, x.p, listen[0], LISTEN_SET);
        var (q, ok) := Poll.Add(x.p, listen[0], LISTEN_SET);
        if ok {
          ListenOnJoined(cfg, Joint(x.t.(registered := x.t.registered + {listen[0]}), q), listen[1..], all);
        } else {
          RefusedIsSame(x.t, x.p, listen[0], LISTEN_SET);
        }
      }
    }
  }

  lemma ElementsRest(s: seq<int>)
    requires s != []
    ensures s[0] in Elements(s) && Elements(s[1..]) <= Elements(s)
  {
  }

  lemma RefusedIsSame(t: Thread, p: Poll.Poller, s: int, flags: set<Poll.Flag>)
    requires Mirrors(t, p) && !Poll.Add(p, s, flags).1
    ensures Mirrors(t, Poll.Add(p, s, flags).0)
  {
  }

  lemma {:induction false} ListenOffJoined(cfg: Config, x: Joint, listen: seq<int>)
    requires Joined(cfg, x)
    ensures var y := SetListenFromJoint(x, listen, false);
            Joined(cfg, y) && y.t == SetListenFrom(x.t, listen, false, Exact)
    decreases |listen|
  {
    hide Poll.Inv, Poll.Remove;
    if listen != [] {
      if listen[0] == NO_SOCKET {
        ListenOffJoined(cfg, x, listen[1..]);
      } else {
        RemoveMirrors(x.t, x.p, listen[0]);
        var (q, ok) := Poll.Remove(x.p, listen[0]);
        if ok {
          ListenOffJoined(cfg, Joint(x.t.(registered := x.t.registered - {listen[0]}), q), listen[1..]);
        } else {
          NotRemovedIsSame(x.t, x.p, listen[0]);
        }
      }
    }
  }

  lemma NotRemovedIsSame(t: Thread, p: Poll.Poller, s: int)
    requires Mirrors(t, p) && !Poll.Remove(p, s).1
    ensures Mirrors(t, Poll.Remove(p, s).0)
  {
  }

  lemma ListenJoined(cfg: Config, x: Joint)
    requires ConfigOk(cfg) && Bounded(cfg, x.t) && Joined(cfg, x)
    ensures Joined(cfg, ListenJoint(cfg, x)) && ListenJoint(cfg, x).t == Listened(cfg, x.t, Exact)
  {
    hide SetListenFrom, SetListenFromJoint, AtMax, Registry, Joined, Elements;
    SocketsCount(cfg, x.t);
    OpenIsCounted(cfg, x.t);
    if AtMax(cfg, x.t) {
      ListenOffJoined(cfg, x, cfg.listen);
    } else {
      ListenOnJoined(cfg, x, cfg.listen, Sockets(cfg, x.t));
    }
  }

  lemma CloseJoined(cfg: Config, x: Joint, id: nat)
    requires Joined(cfg, x)
    ensures Joined(cfg, CloseJoint(x, id)) && CloseJoint(x, id).t == Close(x.t, id)
  {
    hide Poll.Remove, Poll.Inv;
    RemoveMirrors(x.t, x.p, At(x.t, id).sock);
  }

  lemma RefiledJoined(cfg: Config, x: Joint, c: Connection, d: Connection)
    requires Joined(cfg, x)
    ensures Joined(cfg, x.(p := Refiled(x.p, c, d)))
  {
    hide Poll.ChangeEventSet, Mirrors;
    ChangeMirrors(x.t, x.p, c.sock, CLIENT_WRITE, true);
    ChangeMirrors(x.t, x.p, c.sock, CLIENT_READ, false);
    ChangeMirrors(x.t, Poll.ChangeEventSet(x.p, c.sock, CLIENT_WRITE).0, c.sock, CLIENT_READ, false);
  }

  lemma ServeJoined(cfg: Config, x: Joint, id: nat, io: Io)
    requires Joined(cfg, x)
    ensures Joined(cfg, ServeJoint(cfg, x, id, io)) && ServeJoint(cfg, x, id, io).t == Serve(cfg, x.t, id, Exact, io)
  {
    hide Poll.ChangeEventSet, Handle, Refiled, Close, CloseJoint, Poll.Inv;
    var c := At(x.t, id);
    var (q, toWrite) := Poll.ChangeEventSet(x.p, c.sock, CLIENT_WRITE);
    ChangeMirrors(x.t, x.p, c.sock, CLIENT_WRITE, true);
    ChangeMirrors(x.t, x.p, c.sock, CLIENT_READ, false);
    ChangeMirrors(x.t, q, c.sock, CLIENT_READ, false);
    var (d, kept) := Handle(cfg.service, c, IoOf(x.t, Exact, c.sock, io));
    RefiledJoined(cfg, x, c, d);
    var y := Joint(Put(x.t, id, d), Refiled(x.p, c, d));
    assert Joined(cfg, y);
    CloseJoined(cfg, y, id);
  }

  lemma GetRegistered(t: Thread, s: int, peer: Peer, memory: nat)
    ensures GetConnection(t, s, peer, memory).0.registered == t.registered
  {
    hide Grow;
    GrowRegistered(t, Min(memory, GROWTH));
  }

  lemma {:induction false} GrowRegistered(t: Thread, n: nat)
    ensures Grow(t, n).registered == t.registered
    decreases n
  {
    if n > 0 {
      GrowRegistered(t.(conns := t.conns + [BLANK], free := [|t.conns|] + t.free), n - 1);
    }
  }

  /** An accepted socket finds room, as there was room for another connection. */
  lemma AcceptJoined(cfg: Config, x: Joint, a: Acceptance)
    requires ConfigOk(cfg) && Bounded(cfg, x.t) && |x.t.first| + |x.t.second| < cfg.max && Joined(cfg, x)
    ensures var (y, got) := AcceptJoint(cfg, x, a);
            Joined(cfg, y) && (y.t, got) == AcceptConnection(cfg, x.t, a, Exact)
  {
    hide GetConnection, Close, CloseJoint, Poll.Add, Poll.Inv, Bounded, ConfigOk;
    if a.Accepted? {
      var (u, got) := GetConnection(x.t, a.sock, a.peer, a.memory);
      GetRegistered(x.t, a.sock, a.peer, a.memory);
      if got.Some? {
        var id := got.value;
        if !a.nonBlocking {
          CloseJoined(cfg, Joint(u, x.p), id);
        } else {
          AcceptRoom(cfg, x, a.sock);
          AddMirrors(u, x.p, a.sock, CLIENT_READ);
          var (q, ok) := Poll.Add(x.p, a.sock, CLIENT_READ);
          if !ok {
            RefusedIsSame(u, x.p, a.sock, CLIENT_READ);
            CloseJoined(cfg, Joint(u, q), id);
          } else {
            var v := u.(registered := u.registered + {a.sock});
            var w := Put(v, id, At(v, id).(table := TableId(v)));
            CloseJoined(cfg, Joint(w, q), id);
          }
        }
      }
    }
  }

  lemma AcceptRoom(cfg: Config, x: Joint, s: int)
    requires ConfigOk(cfg) && Bounded(cfg, x.t) && |x.t.first| + |x.t.second| < cfg.max && Joined(cfg, x)
    ensures s !in x.t.registered ==> |x.t.registered| < x.p.capacity
  {
    hide Poll.Inv, Registry, AllDifferent;
    SocketsCount(cfg, x.t);
    OpenIsCounted(cfg, x.t);
    SubsetCount(x.t.registered, Sockets(cfg, x.t));
  }

  // ---- Turns ----

  ghost function InputOf(cfg: Config, x: Joint, s: Surroundings): Input
  {
    Input(Exact, WaitJoint(cfg, x, s).1, s.io, s.acceptance, s.now, s.later, s.order)
  }

  /** What the operating system and the table's index promise. */
  ghost predicate Plausible(cfg: Config, x: Joint, s: Surroundings)
  {
    && Unused(cfg, x.t, s.acceptance)
    && WaitJoint(cfg, x, s).1 != Some(cfg.pipe)
    && SweepsAll(HandleJoint(cfg, x, s).t, s.now, s.order)
  }

  lemma WaitJoined(cfg: Config, x: Joint, s: Surroundings)
    requires ConfigOk(cfg) && Bounded(cfg, x.t) && Joined(cfg, x)
    ensures var (y, event) := WaitJoint(cfg, x, s);
            && Joined(cfg, y) && y.t == Listened(cfg, x.t, Exact) && Bounded(cfg, y.t)
            && (event.Some? ==> event.value in y.t.registered)
    ensures Faithful(cfg, x.t, InputOf(cfg, x, s))
  {
    hide ListenJoint, Listened, Poll.WaitForNextEvent, Poll.Inv, Bounded, ConfigOk;
    ListenJoined(cfg, x);
    ListenedExactly(cfg, x.t);
    WaitMirrors(ListenJoint(cfg, x).t, ListenJoint(cfg, x).p, s.answer);
  }

  lemma HandleJoined(cfg: Config, x: Joint, s: Surroundings)
    requires ConfigOk(cfg) && Bounded(cfg, x.t) && Joined(cfg, x)
    ensures Joined(cfg, HandleJoint(cfg, x, s)) && HandleJoint(cfg, x, s).t == Handled(cfg, x.t, InputOf(cfg, x, s))
  {
    hide WaitJoint, Listened, AcceptJoint, AcceptConnection, ServeJoint, Serve, FindConnection, Joined, Bounded;
    hide ConfigOk, IsEar;
    WaitJoined(cfg, x, s);
    var (y, event) := WaitJoint(cfg, x, s);
    if event.Some? {
      if event.value != NO_SOCKET && event.value in cfg.listen {
        EarRoom(cfg, x.t, event.value);
        AcceptJoined(cfg, y, s.acceptance);
        var (z, got) := AcceptJoint(cfg, y, s.acceptance);
        if got.Some? {
          ServeJoined(cfg, z, got.value, s.io);
        }
      } else if FindConnection(y.t, event.value).Some? {
        ServeJoined(cfg, y, FindConnection(y.t, event.value).value, s.io);
      }
    }
  }

  /** A listening socket that is reported means room for another connection. */
  lemma EarRoom(cfg: Config, t: Thread, s: int)
    requires ConfigOk(cfg) && Bounded(cfg, t) && s in cfg.listen && s != NO_SOCKET
    requires s in Listened(cfg, t, Exact).registered
    ensures |Listened(cfg, t, Exact).first| + |Listened(cfg, t, Exact).second| < cfg.max
  {
    hide Listened, Bounded, ConfigOk;
    EarMeansRoom(cfg, t, s);
    ListenedFrame(cfg, t, Exact);
  }

  lemma {:induction false} CloseAllJoined(cfg: Config, x: Joint, inOld: bool, order: seq<int>)
    requires Joined(cfg, x)
    ensures Joined(cfg, CloseAllJoint(x, inOld, order))
    ensures CloseAllJoint(x, inOld, order).t == CloseAll(x.t, inOld, order)
    decreases |order|
  {
    hide Joined, CloseJoint, Close;
    if order != [] {
      var m := TableOf(x.t, inOld);
      if order[0] in m {
        CloseJoined(cfg, x, m[order[0]]);
      }
      CloseAllJoined(cfg, if order[0] in m then CloseJoint(x, m[order[0]]) else x, inOld, order[1..]);
    }
  }

  /** One turn over CPoll is one turn over an exact poller that reports only registered sockets. */
  lemma TurnJoined(cfg: Config, x: Joint, s: Surroundings)
    requires ConfigOk(cfg) && Bounded(cfg, x.t) && Joined(cfg, x) && Plausible(cfg, x, s)
    ensures Joined(cfg, TurnJoint(cfg, x, s)) && TurnJoint(cfg, x, s).t == Turn(cfg, x.t, InputOf(cfg, x, s))
    ensures Possible(cfg, x.t, InputOf(cfg, x, s)) && Faithful(cfg, x.t, InputOf(cfg, x, s))
  {
    hide WaitJoint, HandleJoint, Handled, CloseAll, CloseAllJoint, Bounded, ConfigOk, Faithful, Lists, Poll.Inv;
    WaitJoined(cfg, x, s);
    HandleJoined(cfg, x, s);
    CloseAllJoined(cfg, HandleJoint(cfg, x, s), true, s.order);
  }

  // ---- Runs ----

  /** The poller after Init: the listening sockets and the pipe. */
  function StartJoint(cfg: Config, now: int): Joint
  {
    var t := Start(cfg, now).(registered := {}, listening := false);
    var x := SetListenFromJoint(Joint(t, Poll.Empty(cfg.max + 5)), cfg.listen, true);
    Joint(x.t.(registered := x.t.registered + {cfg.pipe}), Poll.Add(x.p, cfg.pipe, LISTEN_SET).0)
  }

  lemma StartBounded(cfg: Config, now: int)
    requires ConfigOk(cfg)
    ensures Inv(cfg, Start(cfg, now), NONE) && Bounded(cfg, Start(cfg, now))
  {
    StartOk(cfg, now);
    hide Inv;
  }

  /** All listening sockets find room. */
  lemma ListeningJoined(cfg: Config, t: Thread)
    requires ConfigOk(cfg) && t.registered == {} && t.first == map[] && t.second == map[]
    ensures var y := SetListenFromJoint(Joint(t, Poll.Empty(cfg.max + 5)), cfg.listen, true);
            && Joined(cfg, y) && y.t == t.(registered := y.t.registered, listening := true)
            && (forall s :: s in y.t.registered <==> IsEar(cfg.listen, s))
  {
    hide SetListenFromJoint, SetListenFrom, Joined, IsEar;
    EmptyJoined(cfg, t);
    SocketsCount(cfg, t);
    ListenOnJoined(cfg, Joint(t, Poll.Empty(cfg.max + 5)), cfg.listen, Sockets(cfg, t));
    ListenOn(t, cfg.listen);
    ListenFrame(t, cfg.listen, true, Exact);
  }

  lemma PipeFits(cfg: Config, y: Joint)
    requires ConfigOk(cfg) && Joined(cfg, y) && forall s :: s in y.t.registered <==> IsEar(cfg.listen, s)
    ensures cfg.pipe !in y.t.registered && |y.t.registered| < y.p.capacity
  {
    hide Poll.Inv, AllDifferent;
    var ears := Elements(cfg.listen);
    forall s | s in y.t.registered ensures s in ears {
      assert IsEar(cfg.listen, s);
    }
    assert IsEar(cfg.listen, cfg.pipe) ==> cfg.pipe in cfg.listen;
    ElementsCount(cfg.listen);
    SubsetCount(y.t.registered, ears);
  }

  lemma StartJoined(cfg: Config, now: int)
    requires ConfigOk(cfg)
    ensures Joined(cfg, StartJoint(cfg, now)) && StartJoint(cfg, now).t == Start(cfg, now)
  {
    hide SetListenFromJoint, Poll.Add, Poll.Inv, ConfigOk;
    var t := Start(cfg, now).(registered := {}, listening := false);
    ListeningJoined(cfg, t);
    var y := SetListenFromJoint(Joint(t, Poll.Empty(cfg.max + 5)), cfg.listen, true);
    PipeFits(cfg, y);
    AddMirrors(y.t, y.p, cfg.pipe, LISTEN_SET);
    var ears := set s | s in cfg.listen && s != NO_SOCKET;
    forall s ensures s in y.t.registered <==> s in ears {
      assert s in y.t.registered <==> IsEar(cfg.listen, s);
    }
    assert y.t.registered == ears;
  }

  lemma EmptyJoined(cfg: Config, t: Thread)
    requires t.registered == {}
    ensures Joined(cfg, Joint(t, Poll.Empty(cfg.max + 5)))
  {
  }

  function RunJoint(cfg: Config, x: Joint, surroundings: seq<Surroundings>): Joint
    decreases |surroundings|
  {
    if surroundings == [] then x else RunJoint(cfg, TurnJoint(cfg, x, surroundings[0]), surroundings[1..])
  }

  ghost predicate PlausibleRun(cfg: Config, x: Joint, surroundings: seq<Surroundings>)
    decreases |surroundings|
  {
    surroundings == []
    || (Plausible(cfg, x, surroundings[0]) && PlausibleRun(cfg, TurnJoint(cfg, x, surroundings[0]), surroundings[1..]))
  }

  lemma {:induction false} RunJoined(cfg: Config, x: Joint, surroundings: seq<Surroundings>)
    requires ConfigOk(cfg) && Inv(cfg, x.t, NONE) && Bounded(cfg, x.t) && Joined(cfg, x)
    requires PlausibleRun(cfg, x, surroundings)
    ensures var y := RunJoint(cfg, x, surroundings); Inv(cfg, y.t, NONE) && Bounded(cfg, y.t) && Joined(cfg, y)
    decreases |surroundings|
  {
    hide ConfigOk, Inv, Bounded, Joined, Plausible, TurnJoint, Turn, Possible, Faithful, InputOf;
    if surroundings != [] {
      var s := surroundings[0];
      TurnJoined(cfg, x, s);
      TurnKeeps(cfg, x.t, InputOf(cfg, x, s));
      TurnBounded(cfg, x.t, InputOf(cfg, x, s));
      RunJoined(cfg, TurnJoint(cfg, x, s), surroundings[1..]);
    }
  }

  /** The TCP thread over CPoll, in every run and whatever poll(), accept, recv and send answer: never more
      connections than allowed, the poller never full, each socket's slot exact, and exactly the open
      sockets registered with it. */
  lemma ThreadOverPollIsBounded(cfg: Config, now: int, surroundings: seq<Surroundings>)
    requires ConfigOk(cfg) && PlausibleRun(cfg, StartJoint(cfg, now), surroundings)
    ensures var x := RunJoint(cfg, StartJoint(cfg, now), surroundings);
            && |x.t.first| + |x.t.second| <= cfg.max && |x.p.fds| <= x.p.capacity && Poll.Inv(x.p)
            && (forall s :: s in x.p.table <==> IsOpen(cfg, x.t, s))
  {
    hide Inv, RunJoint, StartJoint, PlausibleRun, Poll.Inv, IsOpen, IsUser;
    StartJoined(cfg, now);
    StartBounded(cfg, now);
    RunJoined(cfg, StartJoint(cfg, now), surroundings);
    var x := RunJoint(cfg, StartJoint(cfg, now), surroundings);
    MirrorsSize(x.t, x.p);
    SocketsCount(cfg, x.t);
    OpenIsCounted(cfg, x.t);
    SubsetCount(x.t.registered, Sockets(cfg, x.t));
  }
}

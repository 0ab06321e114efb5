/** What the TCP thread asks CPoll to watch each of its sockets for. */
module TcpInterests {
  import opened Options
  import opened Connections
  import opened Tcp
  import opened TcpSafety
  import opened TcpRuns
  import opened TcpBounds
  import opened TcpOverPoll
  import TcpOutcomes
  import Poll
  import PollRuns

  /** Room to write while a reply is under way, otherwise bytes or the end of the stream. */
  function Wants(p: Phase): set<Poll.Native>
  {
    if p == Transmitting then {Poll.Known(Poll.Write)} else {Poll.Known(Poll.Read), Poll.Known(Poll.RdHup)}
  }

  /** For a connection by its phase; for a listening socket and the pipe, bytes. */
  function WatchOf(t: Thread, s: int): set<Poll.Native>
  {
    if s in t.first then Wants(At(t, t.first[s]).phase)
    else if s in t.second then Wants(At(t, t.second[s]).phase)
    else {Poll.Known(Poll.Read)}
  }

  ghost predicate Watched(t: Thread, p: Poll.Poller)
  {
    Poll.TableOk(p) && forall s :: s in PollRuns.View(p) ==> PollRuns.View(p)[s].events == WatchOf(t, s)
  }

  lemma NativeSets()
    ensures Poll.ToNative(CLIENT_READ) == Wants(Receiving) == Wants(Closing)
    ensures Poll.ToNative(CLIENT_WRITE) == Wants(Transmitting) && Poll.ToNative(LISTEN_SET) == {Poll.Known(Poll.Read)}
  {
  }

  lemma SameWatch(t: Thread, u: Thread, p: Poll.Poller)
    requires Watched(t, p) && forall s :: WatchOf(u, s) == WatchOf(t, s)
    ensures Watched(u, p)
  {
  }

  // ---- Listening and waiting ----

  lemma AddWatched(t: Thread, p: Poll.Poller, s: int)
    requires Poll.Inv(p) && Watched(t, p) && WatchOf(t, s) == {Poll.Known(Poll.Read)}
    requires s !in p.table ==> |p.fds| < p.capacity
    ensures Watched(t, Poll.Add(p, s, LISTEN_SET).0)
  {
    hide Poll.Pending, WatchOf, Poll.ToNative;
    NativeSets();
    if s !in p.table {
      PollRuns.AddView(p, s, LISTEN_SET);
    }
  }

  lemma RemoveWatched(t: Thread, p: Poll.Poller, s: int)
    requires Poll.Inv(p) && Watched(t, p)
    ensures Watched(t, Poll.Remove(p, s).0)
  {
    hide Poll.Pending, WatchOf, Poll.Remove;
    PollRuns.RemoveView(p, s);
  }

  lemma {:induction false} ListenOnWatched(cfg: Config, x: Joint, listen: seq<int>, all: set<int>)
    requires Joined(cfg, x) && x.t.registered + Elements(listen) <= all && |all| <= cfg.max + 5
    requires Watched(x.t, x.p) && forall s :: IsEar(listen, s) ==> WatchOf(x.t, s) == {Poll.Known(Poll.Read)}
    ensures var y := SetListenFromJoint(x, listen, true); Watched(x.t, y.p)
    decreases |listen|
  {
    hide Poll.Inv, Poll.Add, Elements, WatchOf, Watched;
    if listen != [] {
      ElementsRest(listen);
      assert forall s :: IsEar(listen[1..], s) ==> IsEar(listen, s);
      if listen[0] == NO_SOCKET {
        ListenOnWatched(cfg, x, listen[1..], all);
      } else {
        assert IsEar(listen, listen[0]);
        if listen[0] !in x.t.registered {
          RoomFor(x.t.registered, listen[0], all, cfg.max + 5);
        }
        MirrorsSize(x.t, x.p);
        AddMirrors(x.t, x.p, listen[0], LISTEN_SET);
        AddWatched(x.t, x.p, listen[0]);
        var (q, ok) := Poll.Add(x.p, listen[0], LISTEN_SET);
        var u := x.t.(registered := x.t.registered + {listen[0]});
        if ok {
          WatchFrame(x.t, u);
          SameWatch(x.t, u, q);
          ListenOnWatched(cfg, Joint(u, q), listen[1..], all);
          SameWatch(u, x.t, SetListenFromJoint(Joint(u, q), listen[1..], true).p);
        }
      }
    }
  }

  /** What is watched depends on tables and phases alone. */
  lemma WatchFrame(t: Thread, u: Thread)
    requires u.conns == t.conns && u.first == t.first && u.second == t.second
    ensures forall s :: WatchOf(u, s) == WatchOf(t, s)
  {
  }

  lemma {:induction false} ListenOffWatched(cfg: Config, x: Joint, listen: seq<int>)
    requires Joined(cfg, x) && Watched(x.t, x.p)
    ensures Watched(x.t, SetListenFromJoint(x, listen, false).p)
    decreases |listen|
  {
    hide Poll.Inv, Poll.Remove, WatchOf, Watched;
    if listen != [] {
      if listen[0] == NO_SOCKET {
        ListenOffWatched(cfg, x, listen[1..]);
      } else {
        RemoveMirrors(x.t, x.p, listen[0]);
        RemoveWatched(x.t, x.p, listen[0]);
        var (q, ok) := Poll.Remove(x.p, listen[0]);
        var u := x.t.(registered := x.t.registered - {listen[0]});
        if ok {
          WatchFrame(x.t, u);
          SameWatch(x.t, u, q);
          ListenOffWatched(cfg, Joint(u, q), listen[1..]);
          SameWatch(u, x.t, SetListenFromJoint(Joint(u, q), listen[1..], false).p);
        }
      }
    }
  }

  lemma ListenWatched(cfg: Config, x: Joint)
    requires ConfigOk(cfg) && Bounded(cfg, x.t) && Joined(cfg, x) && Watched(x.t, x.p)
    ensures Watched(ListenJoint(cfg, x).t, ListenJoint(cfg, x).p)
  {
    hide SetListenFrom, SetListenFromJoint, AtMax, Joined, Elements, Watched;
    SocketsCount(cfg, x.t);
    OpenIsCounted(cfg, x.t);
    EarsAreRead(cfg, x.t);
    ListenJoined(cfg, x);
    ListenedFrame(cfg, x.t, Exact);
    hide Registry, WatchOf;
    if AtMax(cfg, x.t) {
      ListenOffWatched(cfg, x, cfg.listen);
    } else {
      ListenOnWatched(cfg, x, cfg.listen, Sockets(cfg, x.t));
    }
    WatchFrame(x.t, ListenJoint(cfg, x).t);
    SameWatch(x.t, ListenJoint(cfg, x).t, ListenJoint(cfg, x).p);
  }

  lemma EarsAreRead(cfg: Config, t: Thread)
    requires Registry(cfg, t)
    ensures forall s :: IsEar(cfg.listen, s) ==> WatchOf(t, s) == {Poll.Known(Poll.Read)}
  {
    forall s | IsEar(cfg.listen, s) ensures WatchOf(t, s) == {Poll.Known(Poll.Read)} {
      assert !IsUser(t, s);
    }
  }

  lemma WaitWatched(t: Thread, p: Poll.Poller, answer: Poll.Answer)
    requires Poll.Inv(p) && Watched(t, p)
    ensures Watched(t, Poll.WaitForNextEvent(p, answer).0)
  {
    hide Poll.Pending, Poll.WaitForNextEvent, WatchOf, Poll.FromNative, Poll.TableOk;
    PollRuns.WaitView(p, answer);
  }

  // ---- Serving ----

  /** The view after a connection went from phase to phase. */
  lemma RefiledView(p: Poll.Poller, c: Connection, d: Connection)
    requires Poll.Inv(p) && c.sock in p.table && Rank(c.phase) <= Rank(d.phase) && c.phase != Idle
    requires PollRuns.View(p)[c.sock].events == Wants(c.phase)
    ensures var q := Refiled(p, c, d);
            && Poll.Inv(q) && q.table.Keys == p.table.Keys
            && PollRuns.View(q)[c.sock].events == Wants(d.phase)
            && forall s :: s in p.table && s != c.sock ==> PollRuns.View(q)[s].events == PollRuns.View(p)[s].events
  {
    hide Poll.Pending, Poll.ChangeEventSet, Poll.TableOk, Poll.ToNative, Wants;
    NativeSets();
    ChangeIs(p, c.sock, CLIENT_WRITE);
    ChangeIs(p, c.sock, CLIENT_READ);
    ChangeIs(Poll.ChangeEventSet(p, c.sock, CLIENT_WRITE).0, c.sock, CLIENT_READ);
  }

  lemma ChangeIs(p: Poll.Poller, fd: int, flags: set<Poll.Flag>)
    requires Poll.Inv(p) && fd in p.table
    ensures var q := Poll.ChangeEventSet(p, fd, flags).0;
            && Poll.Inv(q) && q.table.Keys == p.table.Keys
            && PollRuns.View(q)[fd].events == Poll.ToNative(flags)
            && forall s :: s in p.table && s != fd ==> PollRuns.View(q)[s].events == PollRuns.View(p)[s].events
  {
    hide Poll.Pending, Poll.ToNative, Poll.ChangeEventSet;
    PollRuns.ChangeView(p, fd, flags);
    assert PollRuns.View(p).Keys == p.table.Keys;
    assert PollRuns.View(Poll.ChangeEventSet(p, fd, flags).0).Keys
        == Poll.ChangeEventSet(p, fd, flags).0.table.Keys;
  }

  /** A live connection is watched by its phase. */
  lemma LiveWatch(cfg: Config, t: Thread, id: nat)
    requires Inv(cfg, t, NONE) && Live(t, id)
    ensures WatchOf(t, t.conns[id].sock) == Wants(t.conns[id].phase) && t.conns[id].phase != Idle
  {
    hide PoolOk, TableOk, Wants;
    LiveIsSound(cfg, t, id);
    LiveIsOk(cfg, t, id);
    hide Inv;
  }

  /** When one connection changes, only what its own socket is watched for changes. */
  lemma PutWatch(cfg: Config, t: Thread, id: nat, d: Connection)
    requires Inv(cfg, t, NONE) && Live(t, id)
    ensures var s, u := t.conns[id].sock, Put(t, id, d);
            && WatchOf(u, s) == Wants(d.phase)
            && forall r :: r != s ==> WatchOf(u, r) == WatchOf(t, r)
  {
    hide PoolOk, Wants, ConnectionOk;
    LiveIsSound(cfg, t, id);
  }

  lemma PutWatched(cfg: Config, x: Joint, id: nat, d: Connection)
    requires Inv(cfg, x.t, NONE) && Live(x.t, id) && Poll.Inv(x.p) && Watched(x.t, x.p)
    requires x.t.conns[id].sock in x.p.table && Rank(x.t.conns[id].phase) <= Rank(d.phase)
    ensures Watched(Put(x.t, id, d), Refiled(x.p, x.t.conns[id], d)) && Poll.Inv(Refiled(x.p, x.t.conns[id], d))
  {
    hide Inv, Wants, WatchOf, Refiled, Poll.Pending, Rank;
    LiveWatch(cfg, x.t, id);
    PutWatch(cfg, x.t, id, d);
    RefiledView(x.p, x.t.conns[id], d);
  }

  /** Closing leaves the others watched as they were. */
  lemma CloseWatched(t: Thread, p: Poll.Poller, id: nat)
    requires Poll.Inv(p) && Watched(t, p) && OnlySocket(t, id)
    ensures Watched(Close(t, id), Poll.Remove(p, At(t, id).sock).0)
  {
    hide Poll.Pending, WatchOf, Poll.Remove, Close, Wants;
    PollRuns.RemoveView(p, At(t, id).sock);
    CloseWatch(t, id);
  }

  /** No other socket leads to the connection. */
  ghost predicate OnlySocket(t: Thread, id: nat)
  {
    && (forall s :: s in t.first && t.first[s] == id ==> s == At(t, id).sock)
    && (forall s :: s in t.second && t.second[s] == id ==> s == At(t, id).sock)
  }

  lemma CloseWatch(t: Thread, id: nat)
    requires OnlySocket(t, id)
    ensures forall s :: s != At(t, id).sock ==> WatchOf(Close(t, id), s) == WatchOf(t, s)
  {
  }

  lemma LiveOnly(cfg: Config, t: Thread, id: nat)
    requires Inv(cfg, t, NONE) && Live(t, id)
    ensures OnlySocket(t, id)
  {
    hide PoolOk, ConnectionOk;
    forall s | s in t.first && t.first[s] == id ensures s == At(t, id).sock {
      assert Owns(t, t.first, 1, s, NONE);
    }
    forall s | s in t.second && t.second[s] == id ensures s == At(t, id).sock {
      assert Owns(t, t.second, 2, s, NONE);
    }
  }

  lemma ServeWatched(cfg: Config, x: Joint, id: nat, io: Io)
    requires Inv(cfg, x.t, NONE) && Live(x.t, id) && Poll.Inv(x.p) && Watched(x.t, x.p)
    requires x.t.conns[id].sock in x.p.table
    ensures var y := ServeJoint(cfg, x, id, io); Watched(y.t, y.p)
  {
    hide Inv, Poll.Inv, ConnectionOk, Handle, Poll.ChangeEventSet, Refiled, Close, Watched, Rank, OnlySocket;
    var c := x.t.conns[id];
    LiveIsOk(cfg, x.t, id);
    var (q, toWrite) := Poll.ChangeEventSet(x.p, c.sock, CLIENT_WRITE);
    var toRead := Poll.ChangeEventSet(if c.phase == Receiving then q else x.p, c.sock, CLIENT_READ).1;
    HandleOk(cfg.service, c, io.(toWrite := toWrite, toRead := toRead));
    var (d, kept) := Handle(cfg.service, c, io.(toWrite := toWrite, toRead := toRead));
    PutWatched(cfg, x, id, d);
    LiveOnly(cfg, x.t, id);
    PutOnly(x.t, id, d);
    CloseWatched(Put(x.t, id, d), Refiled(x.p, c, d), id);
  }

  lemma PutOnly(t: Thread, id: nat, d: Connection)
    requires id < |t.conns| && OnlySocket(t, id) && d.sock == t.conns[id].sock
    ensures OnlySocket(Put(t, id, d), id)
  {
  }

  // ---- Accepting ----

  /** Taking a connection from the pool changes nothing that is watched. */
  lemma GetWatch(cfg: Config, t: Thread, a: Acceptance)
    requires Inv(cfg, t, NONE) && a.Accepted? && Unused(cfg, t, a)
    ensures var u := GetConnection(t, a.sock, a.peer, a.memory).0;
            forall s :: WatchOf(u, s) == WatchOf(t, s)
  {
    hide Wants, GetConnection, PoolOk, ConnectionOk;
    GetKeeps(cfg, t, a.sock, a.peer, a.memory);
    var u := GetConnection(t, a.sock, a.peer, a.memory).0;
    forall s ensures WatchOf(u, s) == WatchOf(t, s) {
      if s in t.first {
        assert Owns(t, t.first, 1, s, NONE);
        TcpOutcomes.GetLeaves(cfg, t, a.sock, a.peer, a.memory, t.first[s]);
      } else if s in t.second {
        assert Owns(t, t.second, 2, s, NONE);
        TcpOutcomes.GetLeaves(cfg, t, a.sock, a.peer, a.memory, t.second[s]);
      }
    }
  }

  lemma HeldOnly(cfg: Config, t: Thread, id: nat)
    requires Inv(cfg, t, id)
    ensures OnlySocket(t, id)
  {
    hide PoolOk, ConnectionOk;
    forall s | s in t.first ensures t.first[s] != id {
      assert Owns(t, t.first, 1, s, id);
    }
    forall s | s in t.second ensures t.second[s] != id {
      assert Owns(t, t.second, 2, s, id);
    }
  }

  /** A connection that enters a table is watched for reading. */
  lemma InsertWatch(t: Thread, u: Thread, id: nat, s: int)
    requires OnlySocket(t, id) && id < |t.conns| && t.conns[id].sock == s && t.conns[id].phase == Receiving
    requires s !in t.first && s !in t.second
    requires u == InsertNew(Put(t, id, t.conns[id].(table := TableId(t))), s, id)
    ensures WatchOf(u, s) == Wants(Receiving) && forall r :: r != s ==> WatchOf(u, r) == WatchOf(t, r)
  {
    hide Wants;
  }

  lemma AcceptWatched(cfg: Config, x: Joint, a: Acceptance)
    requires ConfigOk(cfg) && Inv(cfg, x.t, NONE) && Bounded(cfg, x.t) && |x.t.first| + |x.t.second| < cfg.max
    requires Joined(cfg, x) && Unused(cfg, x.t, a) && Watched(x.t, x.p)
    ensures var y := AcceptJoint(cfg, x, a).0; Watched(y.t, y.p)
  {
    hide Inv, GetConnection, Close, CloseJoint, Poll.Add, Poll.Inv, ConfigOk, Registry, Watched, OnlySocket, WatchOf;
    if a.Accepted? {
      UnusedIsUnregistered(cfg, x.t, a);
      GetKeeps(cfg, x.t, a.sock, a.peer, a.memory);
      GetWatch(cfg, x.t, a);
      var (u, got) := GetConnection(x.t, a.sock, a.peer, a.memory);
      SameWatch(x.t, u, x.p);
      if got.Some? {
        var id := got.value;
        HeldOnly(cfg, u, id);
        if !a.nonBlocking {
          CloseHeldWatched(u, x.p, id);
        } else {
          AcceptRoom(cfg, x, a.sock);
          MirrorsSize(x.t, x.p);
          AddMirrors(x.t, x.p, a.sock, CLIENT_READ);
          EnterWatched(cfg, x, u, id, a.sock);
        }
      }
    }
  }

  lemma CloseHeldWatched(t: Thread, p: Poll.Poller, id: nat)
    requires Poll.Inv(p) && Watched(t, p) && OnlySocket(t, id)
    ensures Watched(CloseJoint(Joint(t, p), id).t, CloseJoint(Joint(t, p), id).p)
  {
    hide Poll.Inv, Watched, Close, Poll.Remove;
    CloseWatched(t, p, id);
  }

  lemma EnterWatched(cfg: Config, x: Joint, u: Thread, id: nat, s: int)
    requires Poll.Inv(x.p) && s !in x.p.table && |x.p.fds| < x.p.capacity && Watched(u, x.p)
    requires OnlySocket(u, id) && id < |u.conns| && u.conns[id].sock == s && u.conns[id].phase == Receiving
    requires s !in u.first && s !in u.second
    ensures var v := u.(registered := u.registered + {s});
            var w := Put(v, id, At(v, id).(table := TableId(v)));
            Watched(InsertNew(w, At(v, id).sock, id), Poll.Add(x.p, s, CLIENT_READ).0)
  {
    hide Poll.Pending, WatchOf, Wants, Poll.ToNative, OnlySocket, InsertNew;
    NativeSets();
    PollRuns.AddView(x.p, s, CLIENT_READ);
    var v := u.(registered := u.registered + {s});
    WatchFrame(u, v);
    OnlyFrame(u, v, id);
    var w := Put(v, id, At(v, id).(table := TableId(v)));
    InsertWatch(v, InsertNew(w, s, id), id, s);
    assert PollRuns.View(x.p).Keys == x.p.table.Keys;
  }

  lemma OnlyFrame(t: Thread, u: Thread, id: nat)
    requires u.conns == t.conns && u.first == t.first && u.second == t.second && OnlySocket(t, id)
    ensures OnlySocket(u, id)
  {
  }

  // ---- Turns and runs ----

  lemma {:induction false} CloseAllWatched(cfg: Config, x: Joint, inOld: bool, order: seq<int>)
    requires Inv(cfg, x.t, NONE) && Joined(cfg, x) && Watched(x.t, x.p)
    ensures var y := CloseAllJoint(x, inOld, order); Watched(y.t, y.p)
    decreases |order|
  {
    hide Joined, CloseJoint, Close, Inv, Watched;
    if order != [] {
      var m := TableOf(x.t, inOld);
      if order[0] in m {
        var id := m[order[0]];
        TableIsLive(cfg, x.t, inOld, order[0]);
        LiveOnly(cfg, x.t, id);
        JoinedInv(cfg, x);
        CloseHeldWatched(x.t, x.p, id);
        CloseJoined(cfg, x, id);
        CloseKeeps(cfg, x.t, id, NONE);
        CloseAllWatched(cfg, CloseJoint(x, id), inOld, order[1..]);
      } else {
        CloseAllWatched(cfg, x, inOld, order[1..]);
      }
    }
  }

  lemma JoinedInv(cfg: Config, x: Joint)
    requires Joined(cfg, x)
    ensures Poll.Inv(x.p) && x.p.table.Keys == x.t.registered
  {
  }

  lemma HandleWatched(cfg: Config, x: Joint, s: Surroundings)
    requires ConfigOk(cfg) && Inv(cfg, x.t, NONE) && Bounded(cfg, x.t) && Joined(cfg, x)
    requires Unused(cfg, x.t, s.acceptance) && Watched(x.t, x.p)
    ensures var y := HandleJoint(cfg, x, s); Watched(y.t, y.p)
  {
    hide WaitJoint, AcceptJoint, ServeJoint, FindConnection, Inv, ConfigOk, IsEar, Listened, Poll.Inv, Watched;
    hide AcceptConnection, Joined, Registry;
    WaitJoined(cfg, x, s);
    WaitIsWatched(cfg, x, s);
    ListenKeeps(cfg, x.t, Exact);
    ListenedFrame(cfg, x.t, Exact);
    var (y, event) := WaitJoint(cfg, x, s);
    JoinedInv(cfg, y);
    if event.Some? {
      if event.value != NO_SOCKET && event.value in cfg.listen {
        EarRoom(cfg, x.t, event.value);
        AcceptWatched(cfg, y, s.acceptance);
        AcceptJoined(cfg, y, s.acceptance);
        AcceptKeeps(cfg, y.t, s.acceptance, Exact);
        AcceptBounded(cfg, y.t, s.acceptance);
        var (z, got) := AcceptJoint(cfg, y, s.acceptance);
        if got.Some? {
          JoinedInv(cfg, z);
          LiveRegistered(cfg, z.t, got.value);
          ServeWatched(cfg, z, got.value, s.io);
        }
      } else if FindConnection(y.t, event.value).Some? {
        FoundIsLive(cfg, y.t, event.value);
        LiveRegistered(cfg, y.t, FindConnection(y.t, event.value).value);
        ServeWatched(cfg, y, FindConnection(y.t, event.value).value, s.io);
      }
    }
  }

  lemma LiveRegistered(cfg: Config, t: Thread, id: nat)
    requires Inv(cfg, t, NONE) && Live(t, id) && Registry(cfg, t)
    ensures t.conns[id].sock in t.registered
  {
    hide Inv;
    TcpOutcomes.FoundIs(cfg, t, id);
    TcpOutcomes.UserIsNoEar(cfg, t, t.conns[id].sock);
  }

  lemma WaitIsWatched(cfg: Config, x: Joint, s: Surroundings)
    requires ConfigOk(cfg) && Bounded(cfg, x.t) && Joined(cfg, x) && Watched(x.t, x.p)
    ensures var y := WaitJoint(cfg, x, s).0; Watched(y.t, y.p)
  {
    hide ListenJoint, Listened, Poll.WaitForNextEvent, Poll.Inv, Bounded, ConfigOk, Watched;
    ListenJoined(cfg, x);
    ListenWatched(cfg, x);
    WaitWatched(ListenJoint(cfg, x).t, ListenJoint(cfg, x).p, s.answer);
  }

  lemma TurnWatched(cfg: Config, x: Joint, s: Surroundings)
    requires ConfigOk(cfg) && Inv(cfg, x.t, NONE) && Bounded(cfg, x.t) && Joined(cfg, x) && Plausible(cfg, x, s)
    requires Watched(x.t, x.p)
    ensures Watched(TurnJoint(cfg, x, s).t, TurnJoint(cfg, x, s).p)
  {
    hide WaitJoint, HandleJoint, Handled, CloseAllJoint, Bounded, ConfigOk, Unused, SweepsAll, Inv, Joined, Watched;
    HandleWatched(cfg, x, s);
    HandleJoined(cfg, x, s);
    HandledKeeps(cfg, x.t, InputOf(cfg, x, s));
    var y := HandleJoint(cfg, x, s);
    CloseAllWatched(cfg, y, true, s.order);
    var z := CloseAllJoint(y, true, s.order);
    WatchFrame(z.t, SwapTables(z.t.(lastSweep := s.later)));
    SameWatch(z.t, SwapTables(z.t.(lastSweep := s.later)), z.p);
  }

  lemma {:induction false} RunWatched(cfg: Config, x: Joint, surroundings: seq<Surroundings>)
    requires ConfigOk(cfg) && Inv(cfg, x.t, NONE) && Bounded(cfg, x.t) && Joined(cfg, x) && Watched(x.t, x.p)
    requires PlausibleRun(cfg, x, surroundings)
    ensures var y := RunJoint(cfg, x, surroundings);
            Watched(y.t, y.p) && Inv(cfg, y.t, NONE) && Bounded(cfg, y.t) && Joined(cfg, y)
    decreases |surroundings|
  {
    hide ConfigOk, Inv, Bounded, Joined, Plausible, TurnJoint, Turn, Possible, Faithful, InputOf, Watched;
    if surroundings != [] {
      var s := surroundings[0];
      TurnJoined(cfg, x, s);
      TurnKeeps(cfg, x.t, InputOf(cfg, x, s));
      TurnBounded(cfg, x.t, InputOf(cfg, x, s));
      TurnWatched(cfg, x, s);
      RunWatched(cfg, TurnJoint(cfg, x, s), surroundings[1..]);
    }
  }

  lemma EmptyWatched(t: Thread, capacity: nat)
    requires t.first == map[] && t.second == map[]
    ensures Watched(t, Poll.Empty(capacity)) && forall s :: WatchOf(t, s) == {Poll.Known(Poll.Read)}
  {
  }

  lemma SocketsHold(cfg: Config, t: Thread)
    ensures Elements(cfg.listen) <= Sockets(cfg, t)
  {
  }

  lemma StartWatched(cfg: Config, now: int)
    requires ConfigOk(cfg)
    ensures Watched(StartJoint(cfg, now).t, StartJoint(cfg, now).p)
  {
    hide SetListenFromJoint, Poll.Add, Poll.Inv, ConfigOk, Elements, Watched, IsEar, Joined, WatchOf, Sockets;
    var t := Start(cfg, now).(registered := {}, listening := false);
    var x := Joint(t, Poll.Empty(cfg.max + 5));
    EmptyJoined(cfg, t);
    EmptyWatched(t, cfg.max + 5);
    SocketsCount(cfg, t);
    SocketsHold(cfg, t);
    ListenOnWatched(cfg, x, cfg.listen, Sockets(cfg, t));
    ListeningJoined(cfg, t);
    var y := SetListenFromJoint(x, cfg.listen, true);
    PipeFits(cfg, y);
    JoinedInv(cfg, y);
    MirrorsSize(y.t, y.p);
    AddWatched(t, y.p, cfg.pipe);
    WatchFrame(t, StartJoint(cfg, now).t);
    SameWatch(t, StartJoint(cfg, now).t, StartJoint(cfg, now).p);
  }

  /** In every run of the thread over CPoll each live connection is watched for exactly what it waits for: for room to
      write while its reply is under way, otherwise for bytes and the end of the stream; listening sockets and the
      pipe for bytes. */
  lemma SocketsAreWatched(cfg: Config, now: int, surroundings: seq<Surroundings>)
    requires ConfigOk(cfg) && PlausibleRun(cfg, StartJoint(cfg, now), surroundings)
    ensures var x := RunJoint(cfg, StartJoint(cfg, now), surroundings);
            && Poll.TableOk(x.p)
            && (forall id: nat :: Live(x.t, id) ==>
                  var c := x.t.conns[id];
                  && c.sock in PollRuns.View(x.p)
                  && PollRuns.View(x.p)[c.sock].events
                     == if c.phase == Transmitting then {Poll.Known(Poll.Write)}
                        else {Poll.Known(Poll.Read), Poll.Known(Poll.RdHup)})
            && (forall s :: s in PollRuns.View(x.p) && !IsUser(x.t, s) ==>
                  PollRuns.View(x.p)[s].events == {Poll.Known(Poll.Read)})
  {
    hide Inv, RunJoint, StartJoint, PlausibleRun, Poll.Inv, IsOpen, ConfigOk;
    StartJoined(cfg, now);
    StartBounded(cfg, now);
    StartWatched(cfg, now);
    RunWatched(cfg, StartJoint(cfg, now), surroundings);
    var x := RunJoint(cfg, StartJoint(cfg, now), surroundings);
    forall id: nat | Live(x.t, id)
      ensures x.t.conns[id].sock in PollRuns.View(x.p)
      ensures PollRuns.View(x.p)[x.t.conns[id].sock].events == Wants(x.t.conns[id].phase) {
      LiveRegistered(cfg, x.t, id);
      LiveWatch(cfg, x.t, id);
    }
  }
}

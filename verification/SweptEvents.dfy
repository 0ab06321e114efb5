/** The TCP thread reaches the failing assertion of CPoll: a sweep closes a connection whose event poll() has
    reported and the thread has not heard of yet. */
module SweptEvents {
  import opened Options
  import opened Connections
  import opened Tcp
  import opened TcpSafety
  import opened TcpRuns
  import opened TcpBounds
  import opened TcpOverPoll
  import Poll
  import PollRuns
  import opened PollCounts
  import opened TcpCounts
  import opened Chains

  /** poll() finds exactly these sockets readable. */
  function OnlyReady(ready: set<int>): Poll.Answer
  {
    Poll.Filled(fd => if fd in ready then {Poll.Known(Poll.Read)} else {})
  }

  /** Between turns, with nothing left to report. */
  ghost predicate Idle(cfg: Config, x: Joint)
  {
    && ConfigOk(cfg) && Inv(cfg, x.t, NONE) && Bounded(cfg, x.t) && Joined(cfg, x)
    && Unreported(x.p.fds) == {}
  }

  lemma HasSlot(p: Poll.Poller, s: int)
    requires Poll.TableOk(p) && s in p.table
    ensures p.fds != []
  {
  }

  lemma NothingLeft(p: Poll.Poller)
    requires Poll.Inv(p) && p.fds != [] && Unreported(p.fds) == {}
    ensures Poll.FindNextEvent(p).1.None? && PollRuns.Quiet(PollRuns.View(p)) && Poll.Pending(p.fds) == 0
  {
    hide Poll.TableOk, Poll.Pending, Poll.FindNextEvent, Unreported;
    CountIsUnreported(p);
    Poll.FindKeeps(p);
    PollRuns.QuietIsPending(p);
  }

  /** One of the ready sockets is reported and the others are left. */
  lemma OneReported(p: Poll.Poller, ready: set<int>, r: int)
    requires Poll.Inv(p) && Unreported(p.fds) == {} && r in ready && ready <= p.table.Keys
    ensures var (q, o) := Poll.WaitForNextEvent(p, OnlyReady(ready));
            && Poll.Inv(q) && o.Delivered? && o.event.fd in ready && Unreported(q.fds) == ready - {o.event.fd}
  {
    hide Poll.TableOk, Poll.Pending, Poll.WaitForNextEvent, Poll.FromNative;
    var answer := OnlyReady(ready);
    HasSlot(p, r);
    NothingLeft(p);
    PollRuns.WaitView(p, answer);
    var (q, o) := Poll.WaitForNextEvent(p, answer);
    var u := PollRuns.Refreshed(PollRuns.View(p), answer.revents);
    assert r in u && u[r].revents == {Poll.Known(Poll.Read)};
    hide Unreported;
    forall s ensures s in Unreported(q.fds) <==> s in ready && s != o.event.fd {
      UnreportedView(q, s);
    }
  }

  /** Waiting, when poll() finds `ready` readable. */
  lemma WaitReports(cfg: Config, x: Joint, s: Surroundings, ready: set<int>, r: int)
    requires Idle(cfg, x) && s.answer == OnlyReady(ready) && r in ready && ready <= ListenJoint(cfg, x).t.registered
    ensures var (y, event) := WaitJoint(cfg, x, s);
            && event.Some? && event.value in ready && Unreported(y.p.fds) == ready - {event.value}
            && y.t == Listened(cfg, x.t, Exact) && PollsAgain(cfg, x)
  {
    hide ConfigOk, Inv, Bounded, ListenJoint, Listened, Unreported, Poll.TableOk, Poll.Pending, OnlyReady;
    hide Poll.WaitForNextEvent, Poll.FindNextEvent;
    ListenJoined(cfg, x);
    ListenLeaves(cfg, x);
    var y := ListenJoint(cfg, x);
    assert Unreported(y.p.fds) == {};
    HasSlot(y.p, r);
    NothingLeft(y.p);
    OneReported(y.p, ready, r);
  }

  // ---- A sweep between two reports ----

  lemma ServeAddsNone(cfg: Config, t: Thread, id: nat, io: Io)
    ensures NewTable(Serve(cfg, t, id, Exact, io)).Keys <= NewTable(t).Keys
    ensures Serve(cfg, t, id, Exact, io).lastSweep == t.lastSweep
  {
    hide Handle;
  }

  /** After the sweep nothing of the old table is registered. */
  lemma SweptIsGone(cfg: Config, x: Joint, s: Surroundings, a: int)
    requires Idle(cfg, x) && Plausible(cfg, x, s) && a in OldTable(x.t)
    requires s.now - HandleJoint(cfg, x, s).t.lastSweep >= SWEEP_SECONDS && a !in NewTable(HandleJoint(cfg, x, s).t)
    ensures a !in TurnJoint(cfg, x, s).p.table
  {
    hide Inv, ConfigOk, TurnJoint, HandleJoint, Handled, CloseAll, Poll.Inv, Unused, Faithful, Unreported, Lists;
    hide WaitJoint;
    var i := InputOf(cfg, x, s);
    TurnJoined(cfg, x, s);
    TurnBounded(cfg, x.t, i);
    HandleJoined(cfg, x, s);
    HandledKeeps(cfg, x.t, i);
    var h := Handled(cfg, x.t, i);
    CloseAllEmpties(cfg, h, true, s.order);
    var t := Turn(cfg, x.t, i);
    assert !IsUser(t, a);
    assert IsUser(x.t, a);
    hide IsUser;
    assert !IsOpen(cfg, t, a);
  }

  /** Handling the event of a connection: nothing new is registered and the sweep is as due as before. */
  lemma HandledAddsNone(cfg: Config, x: Joint, s: Surroundings)
    requires Idle(cfg, x) && (WaitJoint(cfg, x, s).1.Some? ==> WaitJoint(cfg, x, s).1.value !in cfg.listen)
    ensures var h := HandleJoint(cfg, x, s).t;
            NewTable(h).Keys <= NewTable(x.t).Keys && h.lastSweep == x.t.lastSweep
  {
    hide Inv, ConfigOk, Bounded, Joined, Unreported, WaitJoint, HandleJoint, Serve, Listened, FindConnection;
    HandleJoined(cfg, x, s);
    ListenedFrame(cfg, x.t, Exact);
    var t, event := Listened(cfg, x.t, Exact), WaitJoint(cfg, x, s).1;
    if event.Some? && FindConnection(t, event.value).Some? {
      ServeAddsNone(cfg, t, FindConnection(t, event.value).value, s.io);
    }
  }

  lemma OldIsRegistered(cfg: Config, x: Joint, a: int)
    requires Idle(cfg, x) && a in OldTable(x.t)
    ensures a in ListenJoint(cfg, x).t.registered && a !in cfg.listen && a !in NewTable(x.t)
  {
    hide ListenJoint, Listened, Unreported, IsEar, AllDifferent, PoolOk, ConnectionOk, Poll.Inv;
    ListenJoined(cfg, x);
    ListenedExactly(cfg, x.t);
    ListenedFrame(cfg, x.t, Exact);
    assert IsUser(x.t, a);
    assert IsOpen(cfg, Listened(cfg, x.t, Exact), a);
  }

  /** Two connections due to be swept become readable in one poll(). The turn that hears of one sweeps the
      other, and the next turn fails the assertion, whatever recv and send answer. */
  lemma SweepFailsAssertion(cfg: Config, x: Joint, s: Surroundings, a: int, b: int)
    requires Idle(cfg, x) && Plausible(cfg, x, s) && a != b && a in OldTable(x.t) && b in OldTable(x.t)
    requires s.answer == OnlyReady({a, b}) && s.now - x.t.lastSweep >= SWEEP_SECONDS
    ensures !AssertionHolds(cfg, TurnJoint(cfg, x, s))
  {
    hide Inv, ConfigOk, Bounded, Unreported, WaitJoint, HandleJoint, TurnJoint, ListenJoint, Listened, OnlyReady;
    hide OldTable, NewTable, Poll.TableOk, Poll.Pending, Poll.FindNextEvent;
    OldIsRegistered(cfg, x, a);
    OldIsRegistered(cfg, x, b);
    WaitReports(cfg, x, s, {a, b}, a);
    var other := if WaitJoint(cfg, x, s).1.value == a then b else a;
    HandledAddsNone(cfg, x, s);
    HandleLeaves(cfg, x, s);
    SweptIsGone(cfg, x, s, other);
    OneLost(cfg, x, s, other);
    EmptyFails(cfg, x, s);
  }

  /** The event of `other` goes with its socket; the count stays. */
  lemma OneLost(cfg: Config, x: Joint, s: Surroundings, other: int)
    requires Idle(cfg, x) && Plausible(cfg, x, s) && PollsAgain(cfg, x)
    requires Unreported(HandleJoint(cfg, x, s).p.fds) == {other} && other !in TurnJoint(cfg, x, s).p.table
    ensures Unreported(TurnJoint(cfg, x, s).p.fds) == {} && Counted(TurnJoint(cfg, x, s).p, 1)
  {
    hide Inv, ConfigOk, Bounded, Unreported, HandleJoint, ListenJoint, CloseAllJoint, PollsAgain, SweepsAll, Unused;
    hide Poll.TableOk, Poll.Pending, WaitJoint;
    var l := x.p.unread - Poll.Pending(x.p.fds);
    assert Counted(x.p, l);
    TurnCounts(cfg, x, l, s);
    HandleJoined(cfg, x, s);
    CloseAllLeaves(cfg, HandleJoint(cfg, x, s), true, s.order);
    TrimsNothing(HandleJoint(cfg, x, s).p);
    var h, y := HandleJoint(cfg, x, s), TurnJoint(cfg, x, s);
    assert Trims(h.p, y.p);
    assert Dropped(h.p, y.p) == {other};
  }

  lemma EmptyFails(cfg: Config, x: Joint, s: Surroundings)
    requires Idle(cfg, x) && Plausible(cfg, x, s)
    requires Unreported(TurnJoint(cfg, x, s).p.fds) == {} && Counted(TurnJoint(cfg, x, s).p, 1)
    ensures !AssertionHolds(cfg, TurnJoint(cfg, x, s))
  {
    hide Inv, Unreported, TurnJoint, ListenJoint, Poll.TableOk, Poll.Pending, Poll.FindNextEvent, Turn, Plausible;
    hide Possible, Faithful, InputOf, Registry, AllDifferent;
    TurnJoined(cfg, x, s);
    TurnKeeps(cfg, x.t, InputOf(cfg, x, s));
    TurnBounded(cfg, x.t, InputOf(cfg, x, s));
    var y := TurnJoint(cfg, x, s);
    var z := ListenJoint(cfg, y);
    ListenJoined(cfg, y);
    ListenLeaves(cfg, y);
    ListenCounts(cfg, y, 1);
    assert Dropped(y.p, z.p) == {};
    PipeRegistered(cfg, y);
    HasSlot(z.p, cfg.pipe);
    NothingLeft(z.p);
    FindIsCount(z.p, 1);
  }

  lemma PipeRegistered(cfg: Config, x: Joint)
    requires ConfigOk(cfg) && Bounded(cfg, x.t) && Joined(cfg, x)
    ensures cfg.pipe in ListenJoint(cfg, x).p.table
  {
    hide ListenJoint, Listened, IsEar, AllDifferent, Poll.Inv;
    ListenJoined(cfg, x);
    ListenedExactly(cfg, x.t);
    assert IsOpen(cfg, Listened(cfg, x.t, Exact), cfg.pipe);
  }

  // ---- Such a state is reached ----

  /** recv and send would block. */
  const BLOCKED: Io := Io([], [], [], true, true)

  lemma BlockedKeeps(cfg: Config, t: Thread, id: nat)
    requires Inv(cfg, t, NONE) && Live(t, id)
    ensures Serve(cfg, t, id, Exact, BLOCKED) == t
  {
    hide Inv;
    LiveIsOk(cfg, t, id);
    assert t.conns[id := t.conns[id]] == t.conns;
  }

  /** With room and memory the accepted connection enters the new table. */
  lemma AcceptEnters(cfg: Config, t: Thread, a: Acceptance)
    requires Inv(cfg, t, NONE) && Bounded(cfg, t) && |t.first| + |t.second| < cfg.max && Unused(cfg, t, a)
    requires a.Accepted? && a.nonBlocking && a.memory > 0
    ensures var (u, got) := AcceptConnection(cfg, t, a, Exact);
            && got.Some? && NewTable(u).Keys == NewTable(t).Keys + {a.sock} && OldTable(u) == OldTable(t)
            && u.lastSweep == t.lastSweep && u.newIsFirst == t.newIsFirst
  {
    hide Inv, GetConnection, Registry, Enter, NewTable, OldTable, Close;
    UnusedIsUnregistered(cfg, t, a);
    GetKeeps(cfg, t, a.sock, a.peer, a.memory);
    GetsOne(t, a.sock, a.peer, a.memory);
    var (u, got) := GetConnection(t, a.sock, a.peer, a.memory);
    EnterInserts(cfg, t, u.(registered := u.registered + {a.sock}), got.value, a.sock);
  }

  lemma EnterInserts(cfg: Config, t: Thread, u: Thread, id: nat, s: int)
    requires id < |u.conns| && u.conns[id].sock == s && |t.first| + |t.second| < cfg.max
    requires u == t.(conns := u.conns, free := u.free, registered := u.registered)
    ensures var (v, got) := Enter(cfg, u, id);
            && got.Some? && NewTable(v).Keys == NewTable(t).Keys + {s} && OldTable(v) == OldTable(t)
            && v.lastSweep == t.lastSweep && v.newIsFirst == t.newIsFirst
  {
    hide Close, InsertNew, TableId;
    var w := Put(u, id, At(u, id).(table := TableId(u)));
    assert NewTable(w) == NewTable(t) && OldTable(w) == OldTable(t) && |NewTable(w)| < cfg.max;
    hide NewTable, OldTable;
    InsertedKeys(w, s, id);
  }

  lemma InsertedKeys(t: Thread, s: int, id: nat)
    ensures var v := InsertNew(t, s, id);
            && NewTable(v).Keys == NewTable(t).Keys + {s} && OldTable(v) == OldTable(t)
            && v.lastSweep == t.lastSweep && v.newIsFirst == t.newIsFirst
  {
  }

  lemma GetsOne(t: Thread, s: int, peer: Peer, memory: nat)
    requires memory > 0
    ensures GetConnection(t, s, peer, memory).1.Some?
  {
    hide Grow;
    GrowGives(t, Min(memory, GROWTH));
  }

  lemma {:induction false} GrowGives(t: Thread, n: nat)
    requires n > 0 || t.free != []
    ensures Grow(t, n).free != []
    decreases n
  {
    if n > 0 {
      GrowGives(t.(conns := t.conns + [BLANK], free := [|t.conns|] + t.free), n - 1);
    }
  }

  /** A turn in which a connection is accepted and has nothing to say yet. */
  ghost predicate Accepts(cfg: Config, s: Surroundings, ear: int, sock: int)
  {
    && IsEar(cfg.listen, ear) && s.answer == OnlyReady({ear}) && s.io == BLOCKED && s.order == []
    && s.acceptance.Accepted? && s.acceptance.nonBlocking && s.acceptance.memory > 0 && s.acceptance.sock == sock
  }

  lemma AcceptHandled(cfg: Config, x: Joint, s: Surroundings, ear: int, sock: int)
    requires Idle(cfg, x) && |x.t.first| + |x.t.second| < cfg.max && Unused(cfg, x.t, s.acceptance)
    requires Accepts(cfg, s, ear, sock)
    ensures var h := HandleJoint(cfg, x, s);
            && NewTable(h.t).Keys == NewTable(x.t).Keys + {sock} && OldTable(h.t) == OldTable(x.t)
            && h.t.lastSweep == x.t.lastSweep && Unreported(h.p.fds) == {} && WaitJoint(cfg, x, s).1 == Some(ear)
  {
    hide Inv, ConfigOk, Unreported, WaitJoint, HandleJoint, Serve, Listened, ListenJoint, AcceptConnection, OnlyReady;
    hide Poll.Inv, Registry;
    EarRegistered(cfg, x, ear);
    WaitReports(cfg, x, s, {ear}, ear);
    HandleLeaves(cfg, x, s);
    HandleJoined(cfg, x, s);
    ListenedFrame(cfg, x.t, Exact);
    ListenKeeps(cfg, x.t, Exact);
    ListenedExactly(cfg, x.t);
    var t := Listened(cfg, x.t, Exact);
    AcceptEnters(cfg, t, s.acceptance);
    AcceptKeeps(cfg, t, s.acceptance, Exact);
    var (u, got) := AcceptConnection(cfg, t, s.acceptance, Exact);
    BlockedKeeps(cfg, u, got.value);
  }

  lemma EarRegistered(cfg: Config, x: Joint, ear: int)
    requires Idle(cfg, x) && |x.t.first| + |x.t.second| < cfg.max && IsEar(cfg.listen, ear)
    ensures ear in ListenJoint(cfg, x).t.registered
  {
    hide ListenJoint, Listened, IsEar, Inv, ConfigOk, Poll.Inv, Unreported;
    ListenJoined(cfg, x);
    ListenedExactly(cfg, x.t);
    assert IsOpen(cfg, Listened(cfg, x.t, Exact), ear);
  }

  /** Such turns are possible while the old table is empty, and a sweep then makes the new table the old one. */
  lemma AcceptTurn(cfg: Config, x: Joint, s: Surroundings, ear: int, sock: int)
    requires Idle(cfg, x) && |x.t.first| + |x.t.second| < cfg.max && Unused(cfg, x.t, s.acceptance)
    requires Accepts(cfg, s, ear, sock) && OldTable(x.t) == map[]
    ensures Plausible(cfg, x, s) && Idle(cfg, TurnJoint(cfg, x, s))
    ensures var y, due := TurnJoint(cfg, x, s).t, s.now - x.t.lastSweep >= SWEEP_SECONDS;
            && TableOf(y, due).Keys == NewTable(x.t).Keys + {sock} && TableOf(y, !due) == map[]
            && y.lastSweep == if due then s.later else x.t.lastSweep
  {
    hide Inv, ConfigOk, Bounded, Joined, Unreported, WaitJoint, HandleJoint, Turn, Unused, Faithful;
    AcceptHandled(cfg, x, s, ear, sock);
    EarIsNotPipe(cfg, ear);
    assert Plausible(cfg, x, s);
    TurnJoined(cfg, x, s);
    TurnKeeps(cfg, x.t, InputOf(cfg, x, s));
    TurnBounded(cfg, x.t, InputOf(cfg, x, s));
  }

  lemma EarIsNotPipe(cfg: Config, ear: int)
    requires ConfigOk(cfg) && IsEar(cfg.listen, ear)
    ensures ear != cfg.pipe
  {
  }

  /** A turn in which two old connections become readable, one of them is heard and both are swept. */
  function Swept(now: int, a: int, b: int): Surroundings
  {
    Surroundings(OnlyReady({a, b}), BLOCKED, Denied, now, now, [a, b])
  }

  lemma SweptIsPlausible(cfg: Config, x: Joint, now: int, a: int, b: int)
    requires Idle(cfg, x) && a != b && OldTable(x.t).Keys == {a, b}
    ensures Plausible(cfg, x, Swept(now, a, b))
  {
    hide Inv, ConfigOk, Unreported, WaitJoint, HandleJoint, Serve, Listened, ListenJoint, OnlyReady, FindConnection;
    hide Poll.Inv, Registry, IsEar;
    var s := Swept(now, a, b);
    assert a in OldTable(x.t).Keys && b in OldTable(x.t).Keys;
    OldIsRegistered(cfg, x, a);
    OldIsRegistered(cfg, x, b);
    WaitReports(cfg, x, s, {a, b}, a);
    OldIsNotPipe(cfg, x, a);
    OldIsNotPipe(cfg, x, b);
    HandleJoined(cfg, x, s);
    ListenedFrame(cfg, x.t, Exact);
    ListenKeeps(cfg, x.t, Exact);
    var t, event := Listened(cfg, x.t, Exact), WaitJoint(cfg, x, s).1.value;
    if FindConnection(t, event).Some? {
      FoundIsLive(cfg, t, event);
      BlockedKeeps(cfg, t, FindConnection(t, event).value);
    }
    assert forall i :: i in OldTable(x.t) <==> i in [a, b];
  }

  lemma OldIsNotPipe(cfg: Config, x: Joint, a: int)
    requires Idle(cfg, x) && a in OldTable(x.t)
    ensures a != cfg.pipe
  {
    hide Inv, ConfigOk, Joined, Unreported, IsEar;
    assert IsUser(x.t, a);
  }

  function Accepting(ear: int, sock: int, peer: Peer, now: int): Surroundings
  {
    Surroundings(OnlyReady({ear}), BLOCKED, Accepted(sock, peer, 1, true), now, now, [])
  }

  lemma StartIsIdle(cfg: Config, now: int)
    requires ConfigOk(cfg)
    ensures Idle(cfg, StartJoint(cfg, now)) && StartJoint(cfg, now).t == Start(cfg, now)
  {
    hide Inv, Bounded, ConfigOk, StartJoint, Poll.Pending, Unreported;
    StartJoined(cfg, now);
    StartBounded(cfg, now);
    StartCounts(cfg, now);
    StartUnread(cfg, now);
    CountIsUnreported(StartJoint(cfg, now).p);
  }

  lemma StartUnread(cfg: Config, now: int)
    ensures StartJoint(cfg, now).p.unread == 0
  {
    hide SetListenFromJoint, Poll.Add, Unreported;
    var t := Start(cfg, now).(registered := {}, listening := false);
    var x := Joint(t, Poll.Empty(cfg.max + 5));
    ListenOnLeaves(x, cfg.listen);
    AddLeaves(SetListenFromJoint(x, cfg.listen, true).p, cfg.pipe, LISTEN_SET);
  }

  /** In four turns the thread, with any two peers that connect and say nothing for a minute, comes to fail
      the assertion. */
  lemma ThreadFailsAssertion(cfg: Config, now: int, ear: int, a: int, b: int, peer: Peer)
    returns (surroundings: seq<Surroundings>)
    requires ConfigOk(cfg) && IsEar(cfg.listen, ear) && cfg.max >= 2
    requires a >= 0 && b >= 0 && a != b && a !in cfg.listen && b !in cfg.listen && a != cfg.pipe && b != cfg.pipe
    ensures PlausibleRun(cfg, StartJoint(cfg, now), surroundings)
    ensures !AssertionHolds(cfg, RunJoint(cfg, StartJoint(cfg, now), surroundings))
  {
    hide ConfigOk, StartJoint, TurnJoint, Plausible, Idle, AssertionHolds, IsEar, PlausibleRun, RunJoint, OnlyReady;
    StartIsIdle(cfg, now);
    var s1, s2 := Accepting(ear, a, peer, now), Accepting(ear, b, peer, now + SWEEP_SECONDS);
    var s3 := Swept(now + 2 * SWEEP_SECONDS, a, b);
    var x0 := StartJoint(cfg, now);
    AcceptTurn(cfg, x0, s1, ear, a);
    var x1 := TurnJoint(cfg, x0, s1);
    OneConnection(x1.t, a);
    AcceptTurn(cfg, x1, s2, ear, b);
    var x2 := TurnJoint(cfg, x1, s2);
    assert OldTable(x2.t).Keys == {a, b};
    SweptIsPlausible(cfg, x2, now + 2 * SWEEP_SECONDS, a, b);
    SweepFailsAssertion(cfg, x2, s3, a, b);
    NoTurn(cfg, TurnJoint(cfg, x2, s3));
    FirstTurn(cfg, x2, s3, []);
    FirstTurn(cfg, x1, s2, [s3] + []);
    surroundings := [s1] + ([s2] + ([s3] + []));
    FirstTurn(cfg, x0, s1, [s2] + ([s3] + []));
  }

  lemma NoTurn(cfg: Config, x: Joint)
    ensures PlausibleRun(cfg, x, []) && RunJoint(cfg, x, []) == x
  {
  }

  lemma FirstTurn(cfg: Config, x: Joint, s: Surroundings, rest: seq<Surroundings>)
    requires Plausible(cfg, x, s) && PlausibleRun(cfg, TurnJoint(cfg, x, s), rest)
    ensures PlausibleRun(cfg, x, [s] + rest)
    ensures RunJoint(cfg, x, [s] + rest) == RunJoint(cfg, TurnJoint(cfg, x, s), rest)
  {
    hide Plausible, TurnJoint;
    assert ([s] + rest)[1..] == rest;
  }

  lemma OneConnection(t: Thread, a: int)
    requires NewTable(t).Keys == {a} && OldTable(t) == map[]
    ensures |t.first| + |t.second| == 1
    ensures forall s :: s != a ==> s !in t.first && s !in t.second
  {
    assert |NewTable(t)| == |NewTable(t).Keys|;
  }
}

/** The TCP thread over CPoll, and the assertion CPoll makes before it calls poll() again. */
module TcpCounts {
  import opened Options
  import opened Connections
  import opened Tcp
  import opened TcpSafety
  import opened TcpRuns
  import opened TcpBounds
  import opened TcpOverPoll
  import Poll
  import PollRuns
  import opened PollCounts

  /** Sockets whose events were not reported before they were unregistered. */
  ghost function Dropped(p: Poll.Poller, q: Poll.Poller): set<int>
  {
    set s | s in Unreported(p.fds) && s !in q.table
  }

  /** Nothing but registrations changed: what is still registered is as unreported as before. */
  ghost predicate Trims(p: Poll.Poller, q: Poll.Poller)
  {
    q.unread == p.unread && Unreported(q.fds) == Unreported(p.fds) - Dropped(p, q)
  }

  ghost predicate Same(p: Poll.Poller, q: Poll.Poller)
  {
    q.unread == p.unread && Unreported(q.fds) == Unreported(p.fds)
  }

  lemma TrimsCounts(p: Poll.Poller, lost: nat, q: Poll.Poller)
    requires Counted(p, lost) && Poll.Inv(q) && Trims(p, q)
    ensures Counted(q, lost + |Dropped(p, q)|)
  {
    hide Counted, Poll.Inv, Unreported;
    CountedAfter(p, lost, q);
    assert Unreported(p.fds) - Unreported(q.fds) == Dropped(p, q);
  }

  lemma SameCounts(p: Poll.Poller, lost: nat, q: Poll.Poller)
    requires Counted(p, lost) && Poll.Inv(q) && Same(p, q)
    ensures Counted(q, lost)
  {
    hide Counted, Poll.Inv, Unreported;
    CountedAfter(p, lost, q);
    assert Unreported(p.fds) - Unreported(q.fds) == {};
  }

  // ---- What each operation of the thread leaves unreported ----

  lemma {:induction false} ListenOnLeaves(x: Joint, listen: seq<int>)
    ensures var y := SetListenFromJoint(x, listen, true); Same(x.p, y.p) && x.p.table.Keys <= y.p.table.Keys
    decreases |listen|
  {
    hide Poll.Add, Unreported;
    if listen != [] {
      if listen[0] == NO_SOCKET {
        ListenOnLeaves(x, listen[1..]);
      } else {
        AddLeaves(x.p, listen[0], LISTEN_SET);
        var q := Poll.Add(x.p, listen[0], LISTEN_SET).0;
        ListenOnLeaves(Joint(x.t.(registered := x.t.registered + {listen[0]}), q), listen[1..]);
      }
    }
  }

  /** Unregistering one socket, then others. */
  lemma RemoveTrims(p: Poll.Poller, s: int, q: Poll.Poller)
    requires Poll.TableOk(p)
    requires var r := Poll.Remove(p, s).0; Trims(r, q) && q.table.Keys <= r.table.Keys
    ensures Trims(p, q) && q.table.Keys <= p.table.Keys
  {
    hide Poll.Remove, Unreported, Poll.TableOk;
    RemoveLeaves(p, s);
    var r := Poll.Remove(p, s).0;
    assert s !in q.table.Keys;
    assert Unreported(q.fds) == Unreported(p.fds) - Dropped(p, q);
  }

  lemma TrimsNothing(p: Poll.Poller)
    requires Poll.TableOk(p)
    ensures Trims(p, p)
  {
    hide Poll.TableOk;
    forall s | s in Unreported(p.fds) ensures s in p.table {
      UnreportedView(p, s);
    }
  }

  lemma {:induction false} ListenOffLeaves(cfg: Config, x: Joint, listen: seq<int>)
    requires Joined(cfg, x)
    ensures var y := SetListenFromJoint(x, listen, false); Trims(x.p, y.p) && y.p.table.Keys <= x.p.table.Keys
    decreases |listen|
  {
    hide Poll.Remove, Poll.TableOk, Poll.Pending, Trims;
    TrimsNothing(x.p);
    if listen != [] {
      if listen[0] == NO_SOCKET {
        ListenOffLeaves(cfg, x, listen[1..]);
      } else {
        RemoveMirrors(x.t, x.p, listen[0]);
        var (q, ok) := Poll.Remove(x.p, listen[0]);
        if ok {
          var u := x.t.(registered := x.t.registered - {listen[0]});
          ListenOffLeaves(cfg, Joint(u, q), listen[1..]);
        } else {
          TrimsNothing(q);
        }
        RemoveTrims(x.p, listen[0], SetListenFromJoint(x, listen, false).p);
      }
    }
  }

  lemma ListenLeaves(cfg: Config, x: Joint)
    requires Joined(cfg, x)
    ensures Trims(x.p, ListenJoint(cfg, x).p)
  {
    hide SetListenFromJoint, Unreported, Poll.TableOk, Poll.Pending;
    TrimsNothing(x.p);
    if AtMax(cfg, x.t) {
      ListenOffLeaves(cfg, x, cfg.listen);
    } else {
      ListenOnLeaves(x, cfg.listen);
    }
  }

  lemma {:induction false} CloseAllLeaves(cfg: Config, x: Joint, inOld: bool, order: seq<int>)
    requires Joined(cfg, x)
    ensures var y := CloseAllJoint(x, inOld, order); Trims(x.p, y.p) && y.p.table.Keys <= x.p.table.Keys
    decreases |order|
  {
    hide Poll.Remove, Poll.TableOk, Poll.Pending, Trims, Close;
    TrimsNothing(x.p);
    if order != [] {
      var m := TableOf(x.t, inOld);
      if order[0] in m {
        CloseJoined(cfg, x, m[order[0]]);
        CloseAllLeaves(cfg, CloseJoint(x, m[order[0]]), inOld, order[1..]);
        RemoveTrims(x.p, At(x.t, m[order[0]]).sock, CloseAllJoint(x, inOld, order).p);
      } else {
        CloseAllLeaves(cfg, x, inOld, order[1..]);
      }
    }
  }

  /** Closing a connection with nothing to report. */
  lemma CloseLeaves(x: Joint, id: nat)
    requires Poll.Inv(x.p) && At(x.t, id).sock !in Unreported(x.p.fds)
    ensures Same(x.p, CloseJoint(x, id).p)
  {
    hide Poll.Remove, Unreported, Poll.TableOk, Poll.Pending, Close;
    RemoveLeaves(x.p, At(x.t, id).sock);
    assert Unreported(x.p.fds) - {At(x.t, id).sock} == Unreported(x.p.fds);
  }

  lemma RefiledLeaves(p: Poll.Poller, c: Connection, d: Connection)
    requires Poll.Inv(p)
    ensures Same(p, Refiled(p, c, d)) && Poll.Inv(Refiled(p, c, d))
  {
    hide Poll.ChangeEventSet, Unreported, Poll.Inv;
    ChangeLeaves(p, c.sock, CLIENT_WRITE);
    ChangeLeaves(p, c.sock, CLIENT_READ);
    ChangeLeaves(Poll.ChangeEventSet(p, c.sock, CLIENT_WRITE).0, c.sock, CLIENT_READ);
  }

  /** Serving a connection whose event was reported loses none. */
  lemma ServeLeaves(cfg: Config, x: Joint, id: nat, io: Io)
    requires Inv(cfg, x.t, NONE) && Live(x.t, id) && Poll.Inv(x.p)
    requires x.t.conns[id].sock !in Unreported(x.p.fds)
    ensures Same(x.p, ServeJoint(cfg, x, id, io).p)
  {
    hide Inv, Poll.Inv, ConnectionOk, Handle, Poll.ChangeEventSet, Unreported, Refiled, CloseJoint;
    var c := x.t.conns[id];
    LiveIsOk(cfg, x.t, id);
    var (q, toWrite) := Poll.ChangeEventSet(x.p, c.sock, CLIENT_WRITE);
    var toRead := Poll.ChangeEventSet(if c.phase == Receiving then q else x.p, c.sock, CLIENT_READ).1;
    HandleOk(cfg.service, c, io.(toWrite := toWrite, toRead := toRead));
    var (d, kept) := Handle(cfg.service, c, io.(toWrite := toWrite, toRead := toRead));
    RefiledLeaves(x.p, c, d);
    CloseLeaves(Joint(Put(x.t, id, d), Refiled(x.p, c, d)), id);
  }

  lemma FreshIsReported(cfg: Config, x: Joint, s: int)
    requires Joined(cfg, x) && s !in x.t.registered
    ensures s !in Unreported(x.p.fds)
  {
    hide Poll.TableOk, Poll.Pending, Unreported;
    UnreportedView(x.p, s);
  }

  /** Accepting loses no event, and the accepted socket has none yet. */
  lemma AcceptLeaves(cfg: Config, x: Joint, a: Acceptance)
    requires ConfigOk(cfg) && Inv(cfg, x.t, NONE) && Bounded(cfg, x.t) && |x.t.first| + |x.t.second| < cfg.max
    requires Joined(cfg, x) && Unused(cfg, x.t, a)
    ensures var (y, got) := AcceptJoint(cfg, x, a);
            && Same(x.p, y.p)
            && (got.Some? ==> Live(y.t, got.value) && y.t.conns[got.value].sock !in Unreported(y.p.fds))
  {
    hide Inv, GetConnection, Close, CloseJoint, Poll.Add, Poll.Inv, ConfigOk, Unreported, Registry;
    if a.Accepted? {
      UnusedIsUnregistered(cfg, x.t, a);
      FreshIsReported(cfg, x, a.sock);
      GetKeeps(cfg, x.t, a.sock, a.peer, a.memory);
      var (u, got) := GetConnection(x.t, a.sock, a.peer, a.memory);
      if got.Some? {
        AcceptRoom(cfg, x, a.sock);
        AddMirrors(u, x.p, a.sock, CLIENT_READ);
        AddLeaves(x.p, a.sock, CLIENT_READ);
        CloseLeaves(Joint(u, x.p), got.value);
        var q := Poll.Add(x.p, a.sock, CLIENT_READ).0;
        var v := u.(registered := u.registered + {a.sock});
        CloseLeaves(Joint(Put(v, got.value, At(v, got.value).(table := TableId(v))), q), got.value);
      }
    }
  }

  /** Handling an event loses none. */
  lemma HandleLeaves(cfg: Config, x: Joint, s: Surroundings)
    requires ConfigOk(cfg) && Inv(cfg, x.t, NONE) && Bounded(cfg, x.t) && Joined(cfg, x)
    requires Unused(cfg, x.t, s.acceptance)
    ensures Same(WaitJoint(cfg, x, s).0.p, HandleJoint(cfg, x, s).p)
  {
    hide WaitJoint, AcceptJoint, ServeJoint, FindConnection, Inv, ConfigOk, IsEar, Unreported, Listened, Poll.Inv;
    hide Registry;
    WaitJoined(cfg, x, s);
    ListenKeeps(cfg, x.t, Exact);
    ListenedFrame(cfg, x.t, Exact);
    var (y, event) := WaitJoint(cfg, x, s);
    if event.Some? {
      EventIsReported(cfg, x, s);
      if event.value != NO_SOCKET && event.value in cfg.listen {
        EarRoom(cfg, x.t, event.value);
        AcceptLeaves(cfg, y, s.acceptance);
        AcceptJoined(cfg, y, s.acceptance);
        AcceptKeeps(cfg, y.t, s.acceptance, Exact);
        var (z, got) := AcceptJoint(cfg, y, s.acceptance);
        if got.Some? {
          ServeLeaves(cfg, z, got.value, s.io);
        }
      } else if FindConnection(y.t, event.value).Some? {
        FoundIsLive(cfg, y.t, event.value);
        ServeLeaves(cfg, y, FindConnection(y.t, event.value).value, s.io);
      }
    }
  }

  lemma EventIsReported(cfg: Config, x: Joint, s: Surroundings)
    requires ConfigOk(cfg) && Bounded(cfg, x.t) && Joined(cfg, x) && WaitJoint(cfg, x, s).1.Some?
    ensures WaitJoint(cfg, x, s).1.value !in Unreported(WaitJoint(cfg, x, s).0.p.fds)
  {
    hide ListenJoint, Listened, ConfigOk, Bounded, Poll.WaitForNextEvent, Poll.TableOk, Poll.Pending, Unreported;
    ListenJoined(cfg, x);
    WaitLeaves(ListenJoint(cfg, x).p, s.answer);
  }

  // ---- Turns and runs ----

  /** In its next turn the thread finds nothing left to report, so that poll() is called again. */
  ghost predicate PollsAgain(cfg: Config, x: Joint)
  {
    var p := ListenJoint(cfg, x).p;
    p.fds != [] && Poll.FindNextEvent(p).1.None?
  }

  /** The assertion WaitForNextEvent makes at that point: the count of unread events is zero. */
  ghost predicate AssertionHolds(cfg: Config, x: Joint)
  {
    PollsAgain(cfg, x) ==> Poll.FindNextEvent(ListenJoint(cfg, x).p).0.unread == 0
  }

  /** Sockets unregistered with events unreported since poll() was last called: listening sockets when the
      limit is reached, connections when they are swept. */
  ghost function LostTurn(cfg: Config, x: Joint, lost: nat, s: Surroundings): nat
  {
    var before := if PollsAgain(cfg, x) then 0 else lost + |Dropped(x.p, ListenJoint(cfg, x).p)|;
    before + |Dropped(HandleJoint(cfg, x, s).p, TurnJoint(cfg, x, s).p)|
  }

  ghost function RunLost(cfg: Config, x: Joint, lost: nat, surroundings: seq<Surroundings>): (Joint, nat)
    decreases |surroundings|
  {
    if surroundings == [] then (x, lost)
    else RunLost(cfg, TurnJoint(cfg, x, surroundings[0]), LostTurn(cfg, x, lost, surroundings[0]), surroundings[1..])
  }

  lemma ListenCounts(cfg: Config, x: Joint, lost: nat)
    requires ConfigOk(cfg) && Bounded(cfg, x.t) && Joined(cfg, x) && Counted(x.p, lost)
    ensures Counted(ListenJoint(cfg, x).p, lost + |Dropped(x.p, ListenJoint(cfg, x).p)|)
  {
    hide ListenJoint, Counted, ConfigOk, Bounded, Trims, Dropped, Poll.TableOk, Poll.Pending;
    ListenJoined(cfg, x);
    ListenLeaves(cfg, x);
    TrimsCounts(x.p, lost, ListenJoint(cfg, x).p);
  }

  lemma TurnCounts(cfg: Config, x: Joint, lost: nat, s: Surroundings)
    requires ConfigOk(cfg) && Inv(cfg, x.t, NONE) && Bounded(cfg, x.t) && Joined(cfg, x) && Counted(x.p, lost)
    requires Plausible(cfg, x, s)
    ensures Counted(TurnJoint(cfg, x, s).p, LostTurn(cfg, x, lost, s))
  {
    hide ListenJoint, Counted, ConfigOk, Bounded, Trims, Dropped, Same, Inv, HandleJoint, CloseAllJoint, Unused;
    hide Poll.WaitForNextEvent, Poll.FindNextEvent, SweepsAll, Poll.TableOk, Poll.Pending;
    ListenCounts(cfg, x, lost);
    var y := ListenJoint(cfg, x);
    var l := lost + |Dropped(x.p, y.p)|;
    WaitCounts(y.p, l, s.answer);
    var z, h := WaitJoint(cfg, x, s).0, HandleJoint(cfg, x, s);
    HandleLeaves(cfg, x, s);
    HandleJoined(cfg, x, s);
    SameCounts(z.p, if PollsAgain(cfg, x) then 0 else l, h.p);
    CloseAllLeaves(cfg, h, true, s.order);
    CloseAllJoined(cfg, h, true, s.order);
    TrimsNothing(h.p);
    TrimsCounts(h.p, if PollsAgain(cfg, x) then 0 else l, TurnJoint(cfg, x, s).p);
  }

  lemma {:induction false} RunCounts(cfg: Config, x: Joint, lost: nat, surroundings: seq<Surroundings>)
    requires ConfigOk(cfg) && Inv(cfg, x.t, NONE) && Bounded(cfg, x.t) && Joined(cfg, x) && Counted(x.p, lost)
    requires PlausibleRun(cfg, x, surroundings)
    ensures var (y, n) := RunLost(cfg, x, lost, surroundings);
            && y == RunJoint(cfg, x, surroundings) && Counted(y.p, n)
            && Inv(cfg, y.t, NONE) && Bounded(cfg, y.t) && Joined(cfg, y)
    decreases |surroundings|
  {
    hide ConfigOk, Inv, Bounded, Joined, Plausible, TurnJoint, Turn, Possible, Faithful, InputOf, Counted, LostTurn;
    if surroundings != [] {
      var s := surroundings[0];
      TurnJoined(cfg, x, s);
      TurnKeeps(cfg, x.t, InputOf(cfg, x, s));
      TurnBounded(cfg, x.t, InputOf(cfg, x, s));
      TurnCounts(cfg, x, lost, s);
      RunCounts(cfg, TurnJoint(cfg, x, s), LostTurn(cfg, x, lost, s), surroundings[1..]);
    }
  }

  /** In every run of the thread over CPoll, when poll() is about to be called again, the assertion that the
      count of unread events is zero holds if and only if no listening socket was unregistered at the limit
      and no connection was swept with its events unreported since poll() was last called. Connections closed
      while an event is handled never count. */
  lemma AssertionHoldsIff(cfg: Config, now: int, surroundings: seq<Surroundings>)
    requires ConfigOk(cfg) && PlausibleRun(cfg, StartJoint(cfg, now), surroundings)
    ensures var (x, lost) := RunLost(cfg, StartJoint(cfg, now), 0, surroundings);
            && x == RunJoint(cfg, StartJoint(cfg, now), surroundings)
            && (AssertionHolds(cfg, x) <==>
                  (PollsAgain(cfg, x) ==> lost + |Dropped(x.p, ListenJoint(cfg, x).p)| == 0))
  {
    hide ConfigOk, Inv, Bounded, RunLost, RunJoint, StartJoint, PlausibleRun, ListenJoint, Dropped, Poll.FindNextEvent;
    hide Poll.TableOk, Poll.Pending;
    StartJoined(cfg, now);
    StartBounded(cfg, now);
    StartCounts(cfg, now);
    RunCounts(cfg, StartJoint(cfg, now), 0, surroundings);
    var (x, lost) := RunLost(cfg, StartJoint(cfg, now), 0, surroundings);
    ListenCounts(cfg, x, lost);
    if PollsAgain(cfg, x) {
      FindIsCount(ListenJoint(cfg, x).p, lost + |Dropped(x.p, ListenJoint(cfg, x).p)|);
    }
  }

  lemma FindIsCount(p: Poll.Poller, lost: nat)
    requires Counted(p, lost) && p.fds != [] && Poll.FindNextEvent(p).1.None?
    ensures Poll.FindNextEvent(p).0.unread == lost
  {
    hide Poll.TableOk, Poll.FindNextEvent, Poll.Pending;
    Poll.FindKeeps(p);
    FindCounts(p, lost);
  }

  lemma StartCounts(cfg: Config, now: int)
    requires ConfigOk(cfg)
    ensures Counted(StartJoint(cfg, now).p, 0)
  {
    var t := Start(cfg, now).(registered := {}, listening := false);
    var x := Joint(t, Poll.Empty(cfg.max + 5));
    hide SetListenFromJoint, Poll.Add, Unreported, Poll.TableOk, Poll.Pending;
    var y := SetListenFromJoint(x, cfg.listen, true);
    ListenOnLeaves(x, cfg.listen);
    AddLeaves(y.p, cfg.pipe, LISTEN_SET);
    StartJoined(cfg, now);
    EmptyJoined(cfg, t);
    Poll.PendingNone([]);
    SameCounts(x.p, 0, StartJoint(cfg, now).p);
  }
}

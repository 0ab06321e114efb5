/** How far CPoll's count of unread events can be trusted, over any sequence of calls. */
module PollCounts {
  import opened Options
  import opened Poll
  import opened PollRuns

  /** The count is exact as long as the removed socket has nothing pending, and only then. */
  lemma RemoveKeepsCount(p: Poller, fd: int)
    requires Inv(p) && p.unread == Pending(p.fds) && fd in p.table
    ensures Remove(p, fd).0.unread == Pending(Remove(p, fd).0.fds) <==> p.fds[p.table[fd]].revents == {}
  {
    RemovePending(p, fd);
  }

  lemma RemovePending(p: Poller, fd: int)
    requires TableOk(p) && fd in p.table
    ensures Pending(Remove(p, fd).0.fds) + (if p.fds[p.table[fd]].revents != {} then 1 else 0) == Pending(p.fds)
    ensures Remove(p, fd).0.unread == p.unread
  {
    var pos, n := p.table[fd], |p.fds| - 1;
    var moved := p.fds[pos := p.fds[n]];
    PendingUpdate(p.fds, pos, p.fds[n]);
    assert moved == moved[..n] + [p.fds[n]];
    PendingAppend(moved[..n], [p.fds[n]]);
    PendingOne(p.fds[pos]);
  }

  // ---- The sockets whose events were not reported yet ----

  ghost function Unreported(fds: seq<Slot>): set<int>
  {
    set i | 0 <= i < |fds| && fds[i].revents != {} :: fds[i].fd
  }

  lemma UnreportedAppend(fds: seq<Slot>, s: Slot)
    ensures Unreported(fds + [s]) == Unreported(fds) + if s.revents != {} then {s.fd} else {}
  {
    var all := fds + [s];
    forall fd ensures fd in Unreported(all) <==> fd in Unreported(fds) || (s.revents != {} && fd == s.fd) {
      if fd in Unreported(fds) {
        var i :| 0 <= i < |fds| && fds[i].revents != {} && fds[i].fd == fd;
        assert all[i] == fds[i];
      }
      assert all[|fds|] == s;
    }
  }

  lemma {:induction false} PendingIsUnreported(fds: seq<Slot>)
    requires forall i, j :: 0 <= i < j < |fds| ==> fds[i].fd != fds[j].fd
    ensures Pending(fds) == |Unreported(fds)|
    decreases |fds|
  {
    hide Pending;
    if fds == [] {
      PendingNone(fds);
    } else {
      var n := |fds| - 1;
      PendingIsUnreported(fds[..n]);
      assert fds == fds[..n] + [fds[n]];
      PendingAppend(fds[..n], [fds[n]]);
      PendingOne(fds[n]);
      UnreportedAppend(fds[..n], fds[n]);
    }
  }

  lemma UnreportedView(p: Poller, fd: int)
    requires TableOk(p)
    ensures fd in Unreported(p.fds) <==> fd in View(p) && View(p)[fd].revents != {}
  {
    if fd in View(p) && View(p)[fd].revents != {} {
      assert p.fds[p.table[fd]].fd == fd;
    }
  }

  lemma CountIsUnreported(p: Poller)
    requires TableOk(p)
    ensures Pending(p.fds) == |Unreported(p.fds)|
  {
    hide Pending;
    PendingIsUnreported(p.fds);
  }

  /** What each call leaves unreported. */
  lemma AddLeaves(p: Poller, fd: int, flags: set<Flag>)
    ensures var q := Add(p, fd, flags).0;
            q.unread == p.unread && Unreported(q.fds) == Unreported(p.fds) && p.table.Keys <= q.table.Keys
  {
    hide Unreported, ToNative;
    UnreportedAppend(p.fds, Slot(fd, ToNative(flags), {}));
  }

  lemma RemoveLeaves(p: Poller, fd: int)
    requires TableOk(p)
    ensures var q := Remove(p, fd).0;
            && TableOk(q) && q.unread == p.unread && q.table.Keys == p.table.Keys - {fd}
            && Unreported(q.fds) == Unreported(p.fds) - {fd}
  {
    hide Unreported, Remove, TableOk, View;
    var q := Remove(p, fd).0;
    RemoveUnread(p, fd);
    RemoveSlots(p, fd);
    ViewKeys(p);
    ViewKeys(q);
    forall s ensures s in Unreported(q.fds) <==> s in Unreported(p.fds) && s != fd {
      UnreportedView(p, s);
      UnreportedView(q, s);
      assert s in View(q) <==> s in View(p) && s != fd;
    }
  }

  lemma RemoveUnread(p: Poller, fd: int)
    ensures Remove(p, fd).0.unread == p.unread
  {
  }

  lemma ViewKeys(p: Poller)
    requires TableOk(p)
    ensures View(p).Keys == p.table.Keys
  {
  }

  lemma ChangeLeaves(p: Poller, fd: int, flags: set<Flag>)
    requires Inv(p)
    ensures var q := ChangeEventSet(p, fd, flags).0;
            && Inv(q) && q.unread == p.unread && q.table == p.table && Unreported(q.fds) == Unreported(p.fds)
  {
    var q := ChangeEventSet(p, fd, flags).0;
    assert q.unread == p.unread && q.table == p.table;
    hide Unreported, ChangeEventSet, TableOk, Pending, ToNative;
    ChangeView(p, fd, flags);
    forall s ensures s in Unreported(q.fds) <==> s in Unreported(p.fds) {
      UnreportedView(p, s);
      UnreportedView(q, s);
    }
  }

  /** The socket reported is not left. */
  lemma WaitLeaves(p: Poller, answer: Answer)
    requires Inv(p)
    ensures var (q, o) := WaitForNextEvent(p, answer); Inv(q) && (o.Delivered? ==> o.event.fd !in Unreported(q.fds))
  {
    hide Unreported, WaitForNextEvent, TableOk, Pending, Refreshed, FromNative;
    WaitView(p, answer);
    var (q, o) := WaitForNextEvent(p, answer);
    if o.Delivered? {
      UnreportedView(q, o.event.fd);
    }
  }

  /** The count after calls that only lost some unreported events. */
  lemma CountedAfter(p: Poller, lost: nat, q: Poller)
    requires Counted(p, lost) && Inv(q) && q.unread == p.unread && Unreported(q.fds) <= Unreported(p.fds)
    ensures Counted(q, lost + |Unreported(p.fds) - Unreported(q.fds)|)
  {
    hide Pending, Unreported, TableOk;
    CountIsUnreported(p);
    CountIsUnreported(q);
    var a, b := Unreported(p.fds), Unreported(q.fds);
    assert a == b + (a - b);
  }

  /** Sockets removed with events pending since poll() was last called. */
  ghost function Lost(lost: nat, p: Poller, c: Call): nat
  {
    if CallsPoll(p, c) then 0
    else if c.Removes? && Registered(p, c.fd) && p.fds[p.table[c.fd]].revents != {} then lost + 1
    else lost
  }

  ghost function RunLost(p: Poller, lost: nat, calls: seq<Call>): (Poller, nat)
    decreases |calls|
  {
    if calls == [] then (p, lost) else RunLost(Do(p, calls[0]).0, Lost(lost, p, calls[0]), calls[1..])
  }

  ghost predicate Counted(p: Poller, lost: nat)
  {
    Inv(p) && p.unread == Pending(p.fds) + lost
  }

  lemma FindCounts(p: Poller, lost: nat)
    requires Counted(p, lost) && p.fds != []
    ensures Counted(FindNextEvent(p).0, lost)
  {
    hide Turn, Scan, Pending, TableOk;
    FindKeeps(p);
    var rotation := Rotation(p);
    if FindNextEvent(p).1.Some? {
      var i := Turn(Scan(p.fds, rotation, 0), rotation, |p.fds|);
      PendingUpdate(p.fds, i, p.fds[i].(revents := {}));
      PendingOne(p.fds[i]);
      PendingOne(p.fds[i].(revents := {}));
    }
  }

  lemma WaitCounts(p: Poller, lost: nat, answer: Answer)
    requires Counted(p, lost)
    ensures Counted(WaitForNextEvent(p, answer).0, Lost(lost, p, Waiting(answer)))
  {
    hide Pending, FindNextEvent, Fill, TableOk;
    if p.fds != [] {
      FindKeeps(p);
      FindCounts(p, lost);
      if FindNextEvent(p).1.None? {
        CallCounts(FindNextEvent(p).0, answer);
      }
    }
  }

  lemma CallCounts(p: Poller, answer: Answer)
    requires Inv(p) && p.fds != [] && Pending(p.fds) == 0
    ensures Counted(CallPoll(p, answer).0, 0)
  {
    hide Pending, FindNextEvent, Fill, TableOk;
    CallKeeps(p, answer);
    if answer.Filled? {
      FillKeeps(p, answer.revents);
      FindCounts(p.(fds := Fill(p.fds, answer.revents), unread := Pending(Fill(p.fds, answer.revents))), 0);
    }
  }

  lemma StepCounts(p: Poller, lost: nat, c: Call)
    requires Counted(p, lost) && Allowed(p, c)
    ensures Counted(Do(p, c).0, Lost(lost, p, c))
  {
    hide Pending, WaitForNextEvent, TableOk, FindNextEvent;
    match c
    case Adds(fd, flags) =>
      AddView(p, fd, flags);
      PendingAppend(p.fds, [Slot(fd, ToNative(flags), {})]);
      PendingOne(Slot(fd, ToNative(flags), {}));
    case Removes(fd) =>
      RemoveView(p, fd);
      if Registered(p, fd) {
        RemovePending(p, fd);
      }
    case Changes(fd, flags) => ChangeCounts(p, lost, fd, flags);
    case Waiting(answer) => WaitCounts(p, lost, answer);
  }

  lemma ChangeCounts(p: Poller, lost: nat, fd: int, flags: set<Flag>)
    requires Counted(p, lost)
    ensures Counted(ChangeEventSet(p, fd, flags).0, lost)
  {
    hide Pending, TableOk;
    ChangeKeeps(p, fd, flags);
    if Registered(p, fd) {
      var pos := p.table[fd];
      var s := p.fds[pos].(events := ToNative(flags));
      PendingUpdate(p.fds, pos, s);
      PendingOne(s);
      PendingOne(p.fds[pos]);
    }
  }

  lemma {:induction false} RunCounts(p: Poller, lost: nat, calls: seq<Call>)
    requires Counted(p, lost) && AllowedRun(p, calls)
    ensures var (q, n) := RunLost(p, lost, calls); Counted(q, n)
    decreases |calls|
  {
    hide Counted, Do, Lost, Allowed;
    if calls != [] {
      StepCounts(p, lost, calls[0]);
      RunCounts(Do(p, calls[0]).0, Lost(lost, p, calls[0]), calls[1..]);
    }
  }

  /** In every run the count exceeds the pending events by the sockets removed with events pending since
      poll() was last called; so when nothing is left to report, the source's assertion that the count is
      zero holds if and only if there was no such removal. */
  lemma CountIsExactUpToRemovals(capacity: nat, calls: seq<Call>, next: Call)
    requires AllowedRun(Empty(capacity), calls)
    ensures var (p, lost) := RunLost(Empty(capacity), 0, calls);
            && p.unread == Pending(p.fds) + lost
            && (CallsPoll(p, next) ==> (FindNextEvent(p).0.unread == 0 <==> lost == 0))
  {
    assert Counted(Empty(capacity), 0) by {
      PendingNone([]);
    }
    hide RunLost, AllowedRun, FindNextEvent, TableOk;
    RunCounts(Empty(capacity), 0, calls);
    var (p, lost) := RunLost(Empty(capacity), 0, calls);
    if CallsPoll(p, next) {
      FindKeeps(p);
      FindCounts(p, lost);
    }
  }

  // ---- The assertion can fail ----

  const READY: Answer := Filled(_ => {Known(Read)})

  lemma OneSocket(a: int)
    ensures var p := Do(Empty(2), Adds(a, {Read})).0;
            && Inv(p) && |p.fds| == 1 && p.capacity == 2 && p.unread == 0 && p.table.Keys == {a} && Quiet(View(p))
  {
    hide ToNative;
    assert Inv(Empty(2)) by {
      PendingNone([]);
    }
    AddView(Empty(2), a, {Read});
  }

  /** Two registered sockets with nothing pending. */
  lemma TwoSockets(a: int, b: int)
    requires a != b
    ensures var p := Do(Empty(2), Adds(a, {Read})).0;
            var q := Do(p, Adds(b, {Read})).0;
            && Allowed(Empty(2), Adds(a, {Read})) && Allowed(p, Adds(b, {Read}))
            && Counted(q, 0) && View(q).Keys == {a, b} && Quiet(View(q))
  {
    hide ToNative, Pending, TableOk, Add;
    OneSocket(a);
    var p := Do(Empty(2), Adds(a, {Read})).0;
    AddView(p, b, {Read});
    AddUnread(p, b, {Read});
    assert View(p).Keys == p.table.Keys;
    assert View(Do(p, Adds(b, {Read})).0).Keys == {a, b};
  }

  lemma AddUnread(p: Poller, fd: int, flags: set<Flag>)
    ensures Add(p, fd, flags).0.unread == p.unread
  {
  }

  /** When both become ready one is reported and the other is left. */
  lemma OneOfTwo(p: Poller, a: int, b: int) returns (left: int)
    requires a != b && Counted(p, 0) && View(p).Keys == {a, b} && Quiet(View(p))
    ensures var q := WaitForNextEvent(p, READY).0;
            && Counted(q, 0) && View(q).Keys == {a, b} && left in View(q) && View(q)[left].revents != {}
            && forall s :: s in View(q) && s != left ==> View(q)[s].revents == {}
  {
    hide Pending, TableOk, View, WaitForNextEvent, CallPoll, FindNextEvent;
    WaitView(p, READY);
    WaitCounts(p, 0, READY);
    var q, o := WaitForNextEvent(p, READY).0, WaitForNextEvent(p, READY).1;
    var u := Refreshed(View(p), READY.revents);
    assert a in View(p).Keys && View(p) != map[];
    assert a in u && u[a].revents == {Known(Read)};
    left := if o.event.fd == a then b else a;
    assert b in View(p).Keys && b in u && u[b].revents == {Known(Read)};
    assert Lost(0, p, Waiting(READY)) == 0;
  }

  /** Removing the one that is left leaves nothing to report and a count of one. */
  lemma RemovedUnread(p: Poller, a: int, b: int, left: int)
    requires a != b && Counted(p, 0) && View(p).Keys == {a, b} && left in View(p) && View(p)[left].revents != {}
    requires forall s :: s in View(p) && s != left ==> View(p)[s].revents == {}
    ensures var q := Do(p, Removes(left)).0; CallsPoll(q, Waiting(READY)) && FindNextEvent(q).0.unread != 0
  {
    RemovePending(p, left);
    RemoveView(p, left);
    var q := Remove(p, left).0;
    assert Counted(q, 1);
    hide Pending, TableOk, Remove, FindNextEvent;
    assert Quiet(View(q));
    QuietIsPending(q);
    var other := if left == a then b else a;
    assert other in View(p).Keys && other in View(q);
    assert q.fds != [];
    FindKeeps(q);
    FindCounts(q, 1);
  }

  lemma {:induction false} RunThen(p: Poller, lost: nat, calls: seq<Call>, c: Call)
    requires AllowedRun(p, calls) && Allowed(RunLost(p, lost, calls).0, c)
    ensures AllowedRun(p, calls + [c]) && RunLost(p, lost, calls + [c]).0 == Do(RunLost(p, lost, calls).0, c).0
    decreases |calls|
  {
    hide Do, Lost, Allowed;
    if calls == [] {
      assert calls + [c] == [c] && [c][1..] == [];
    } else {
      assert (calls + [c])[1..] == calls[1..] + [c];
      RunThen(Do(p, calls[0]).0, Lost(lost, p, calls[0]), calls[1..], c);
    }
  }

  /** A run that reaches the failing assertion: two sockets become ready, one is reported, the other is
      removed before it is. */
  lemma AssertionCanFail(a: int, b: int) returns (calls: seq<Call>, next: Call)
    requires a != b
    ensures AllowedRun(Empty(2), calls)
    ensures var p := RunLost(Empty(2), 0, calls).0; CallsPoll(p, next) && FindNextEvent(p).0.unread != 0
  {
    hide Do, Lost, Counted, FindNextEvent, CallsPoll, View;
    TwoSockets(a, b);
    calls, next := [Adds(a, {Read}), Adds(b, {Read})], Waiting(READY);
    RunThen(Empty(2), 0, [], calls[0]);
    RunThen(Empty(2), 0, [calls[0]], calls[1]);
    assert [] + [calls[0]] == [calls[0]] && [calls[0]] + [calls[1]] == calls;
    var p := RunLost(Empty(2), 0, calls).0;
    RunThen(Empty(2), 0, calls, Waiting(READY));
    WaitIsDone(p, READY);
    var left := OneOfTwo(p, a, b);
    RunThen(Empty(2), 0, calls + [Waiting(READY)], Removes(left));
    RemovedUnread(WaitForNextEvent(p, READY).0, a, b, left);
    calls := calls + [Waiting(READY)] + [Removes(left)];
  }

  lemma WaitIsDone(p: Poller, answer: Answer)
    ensures Do(p, Waiting(answer)).0 == WaitForNextEvent(p, answer).0
  {
  }
}

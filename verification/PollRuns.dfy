/** What a user of CPoll sees, over any sequence of calls. */
module PollRuns {
  import opened Options
  import opened Poll

  // ---- The poller stands for a map from registered socket to what is known of it ----

  ghost function View(p: Poller): map<int, Slot>
    requires TableOk(p)
  {
    map fd | fd in p.table :: p.fds[p.table[fd]]
  }

  lemma SameMap<V>(l: map<int, V>, r: map<int, V>)
    requires l.Keys == r.Keys && forall s :: s in l ==> s in r && l[s] == r[s]
    ensures l == r
  {
    assert forall s :: s in l ==> l[s] == r[s];
    assert l == r;
  }

  lemma AddView(p: Poller, fd: int, flags: set<Flag>)
    requires Inv(p) && |p.fds| < p.capacity
    ensures Inv(Add(p, fd, flags).0)
    ensures Add(p, fd, flags).1 <==> fd !in View(p)
    ensures View(Add(p, fd, flags).0) == if fd in View(p) then View(p) else View(p)[fd := Slot(fd, ToNative(flags), {})]
  {
    hide Pending;
    if fd !in p.table {
      AddKeeps(p, fd, flags);
      var l, r := View(Add(p, fd, flags).0), View(p)[fd := Slot(fd, ToNative(flags), {})];
      SameMap(l, r);
    }
  }

  /** Whichever slot moved, every other socket keeps its flags and its pending events. */
  lemma RemoveView(p: Poller, fd: int)
    requires Inv(p)
    ensures Inv(Remove(p, fd).0)
    ensures Remove(p, fd).1 <==> fd in View(p)
    ensures View(Remove(p, fd).0) == View(p) - {fd}
  {
    hide Remove, Pending, TableOk;
    RemoveKeeps(p, fd);
    RemoveSlots(p, fd);
    SameMap(View(Remove(p, fd).0), View(p) - {fd});
  }

  lemma RemoveSlots(p: Poller, fd: int)
    requires TableOk(p)
    ensures var q := Remove(p, fd).0;
            && TableOk(q) && q.table.Keys == p.table.Keys - {fd}
            && forall s :: s in q.table ==> View(q)[s] == View(p)[s]
  {
    if fd in p.table {
      RemoveTable(p, fd);
      var q := Remove(p, fd).0;
      forall s | s in q.table ensures q.fds[q.table[s]] == p.fds[p.table[s]] {
        var last := p.fds[|p.fds| - 1];
        assert s in p.table && p.table[s] == |p.fds| - 1 ==> s == last.fd;
      }
    }
  }

  lemma ChangeView(p: Poller, fd: int, flags: set<Flag>)
    requires Inv(p)
    ensures Inv(ChangeEventSet(p, fd, flags).0)
    ensures ChangeEventSet(p, fd, flags).1 <==> fd in View(p)
    ensures fd !in View(p) ==> View(ChangeEventSet(p, fd, flags).0) == View(p)
    ensures fd in View(p) ==>
              View(ChangeEventSet(p, fd, flags).0) == View(p)[fd := View(p)[fd].(events := ToNative(flags))]
  {
    hide Pending;
    ChangeKeeps(p, fd, flags);
    if fd in p.table {
      SameMap(View(ChangeEventSet(p, fd, flags).0), View(p)[fd := View(p)[fd].(events := ToNative(flags))]);
    }
  }

  // ---- Handing out events ----

  ghost predicate Quiet(v: map<int, Slot>)
  {
    forall fd :: fd in v ==> v[fd].revents == {}
  }

  /** `e` reports the pending events of its socket in `v`, which are then cleared. */
  ghost predicate HandsOut(v: map<int, Slot>, e: Event, w: map<int, Slot>)
  {
    && e.fd in v && v[e.fd].revents != {} && e.flags == FromNative(v[e.fd].revents)
    && w == v[e.fd := v[e.fd].(revents := {})]
  }

  lemma QuietIsPending(p: Poller)
    requires Inv(p)
    ensures Quiet(View(p)) <==> Pending(p.fds) == 0
  {
    hide Pending;
    PendingNone(p.fds);
    if Quiet(View(p)) {
      forall i | 0 <= i < |p.fds| ensures p.fds[i].revents == {} {
        assert p.fds[i].fd in View(p);
      }
    }
  }

  lemma ClearView(p: Poller, i: nat, q: Poller)
    requires TableOk(p) && i < |p.fds| && TableOk(q) && q.table == p.table && q.fds == Clear(p.fds, i)
    ensures View(q) == View(p)[p.fds[i].fd := p.fds[i].(revents := {})]
  {
    SameMap(View(q), View(p)[p.fds[i].fd := p.fds[i].(revents := {})]);
  }

  lemma FindView(p: Poller)
    requires Inv(p) && p.fds != []
    ensures Inv(FindNextEvent(p).0)
    ensures FindNextEvent(p).1.None? ==> Quiet(View(p)) && View(FindNextEvent(p).0) == View(p)
    ensures FindNextEvent(p).1.Some? ==> HandsOut(View(p), FindNextEvent(p).1.value, View(FindNextEvent(p).0))
  {
    hide Pending, Scan, Turn, Clear, FromNative;
    FindKeeps(p);
    QuietIsPending(p);
    var (q, e) := FindNextEvent(p);
    if e.Some? {
      var i := Turn(Scan(p.fds, Rotation(p), 0), Rotation(p), |p.fds|);
      ClearView(p, i, q);
    }
  }

  /** The sockets after a successful poll(). */
  ghost function Refreshed(v: map<int, Slot>, revents: int -> set<Native>): map<int, Slot>
  {
    map fd | fd in v :: v[fd].(revents := revents(fd))
  }

  lemma FillView(p: Poller, revents: int -> set<Native>)
    requires TableOk(p)
    ensures Inv(p.(fds := Fill(p.fds, revents), unread := Pending(Fill(p.fds, revents))))
    ensures View(p.(fds := Fill(p.fds, revents), unread := Pending(Fill(p.fds, revents))))
            == Refreshed(View(p), revents)
  {
    hide Pending, Fill;
    FillKeeps(p, revents);
    SameMap(View(p.(fds := Fill(p.fds, revents), unread := Pending(Fill(p.fds, revents)))),
            Refreshed(View(p), revents));
  }

  /** What waiting does to a user's view `v`, when poll() would answer `answer`. */
  ghost predicate Waits(v: map<int, Slot>, answer: Answer, o: Outcome, w: map<int, Slot>)
  {
    if !Quiet(v) then o.Delivered? && HandsOut(v, o.event, w)
    else if answer.Failed? || v == map[] then !o.Delivered? && w == v
    else
      var u := Refreshed(v, answer.revents);
      if Quiet(u) then o.Nothing? && w == u else o.Delivered? && HandsOut(u, o.event, w)
  }

  lemma CallView(p: Poller, answer: Answer)
    requires Inv(p) && p.fds != [] && Quiet(View(p))
    ensures Inv(CallPoll(p, answer).0)
    ensures Waits(View(p), answer, CallPoll(p, answer).1, View(CallPoll(p, answer).0))
  {
    hide Pending, FindNextEvent, Fill, TableOk, View, Quiet, HandsOut, Refreshed;
    QuietIsPending(p);
    CallKeeps(p, answer);
    assert View(p) != map[] by {
      NonEmptyView(p);
    }
    if answer.Filled? {
      FillView(p, answer.revents);
      var q := p.(fds := Fill(p.fds, answer.revents), unread := Pending(Fill(p.fds, answer.revents)));
      QuietIsPending(q);
      FindView(q);
    } else {
      SameView(p, p.(unread := 0));
    }
  }

  lemma NonEmptyView(p: Poller)
    requires TableOk(p) && p.fds != []
    ensures View(p) != map[]
  {
    assert p.fds[0].fd in View(p);
  }

  lemma SameView(p: Poller, q: Poller)
    requires TableOk(p) && p.table == q.table && p.fds == q.fds
    ensures TableOk(q) && View(p) == View(q)
  {
  }

  /** An event left over is handed out first; poll() is called exactly when none is left. */
  lemma WaitView(p: Poller, answer: Answer)
    requires Inv(p)
    ensures Inv(WaitForNextEvent(p, answer).0)
    ensures Waits(View(p), answer, WaitForNextEvent(p, answer).1, View(WaitForNextEvent(p, answer).0))
  {
    hide Pending, FindNextEvent, CallPoll, HandsOut, Refreshed;
    if p.fds != [] {
      FindView(p);
      var (q, e) := FindNextEvent(p);
      if e.None? {
        FindSame(p);
        CallView(q, answer);
      } else {
        HandsOutNotQuiet(View(p), e.value, View(q));
      }
    }
  }

  /** What is reported for a socket: the known ones among the events the operating system last gave for it, in this call
      of poll() or, when some were left, in an earlier one; and poll() is asked for what was registered. */
  lemma ReportedFlags(p: Poller, answer: Answer)
    requires Inv(p) && WaitForNextEvent(p, answer).1.Delivered?
    ensures var e := WaitForNextEvent(p, answer).1.event;
            && e.fd in View(p)
            && (Quiet(View(p)) ==> answer.Filled? && forall f :: f in e.flags <==> Known(f) in answer.revents(e.fd))
            && (!Quiet(View(p)) ==> forall f :: f in e.flags <==> Known(f) in View(p)[e.fd].revents)
  {
    hide WaitForNextEvent, TableOk, Pending, ToNative, FromNative;
    WaitView(p, answer);
    var e := WaitForNextEvent(p, answer).1.event;
    FlagsComeBack({}, if Quiet(View(p)) && answer.Filled? then answer.revents(e.fd) else View(p)[e.fd].revents);
  }

  lemma HandsOutNotQuiet(v: map<int, Slot>, e: Event, w: map<int, Slot>)
    requires HandsOut(v, e, w)
    ensures !Quiet(v)
  {
  }

  lemma FindSame(p: Poller)
    requires Inv(p) && p.fds != [] && FindNextEvent(p).1.None?
    ensures FindNextEvent(p).0.fds == p.fds
  {
  }

  // ---- Runs ----

  datatype Call =
    | Adds(fd: int, flags: set<Flag>)
    | Removes(fd: int)
    | Changes(fd: int, flags: set<Flag>)
    | Waiting(answer: Answer)

  /** Callers keep the number of sockets within the capacity asked for. */
  predicate Allowed(p: Poller, c: Call)
  {
    c.Adds? ==> |p.fds| < p.capacity
  }

  function Do(p: Poller, c: Call): (Poller, Outcome)
  {
    match c
    case Adds(fd, flags) => (Add(p, fd, flags).0, Nothing)
    case Removes(fd) => (Remove(p, fd).0, Nothing)
    case Changes(fd, flags) => (ChangeEventSet(p, fd, flags).0, Nothing)
    case Waiting(answer) => WaitForNextEvent(p, answer)
  }

  /** A log of the latest poll() call: the events it found for sockets not removed since, and what has
      been handed to the caller since. */
  datatype Log = Log(batch: map<int, set<Native>>, handed: seq<Event>)

  /** Whether this call asks the operating system. */
  ghost predicate CallsPoll(p: Poller, c: Call)
  {
    c.Waiting? && p.fds != [] && FindNextEvent(p).1.None?
  }

  ghost function Batch(p: Poller, answer: Answer): map<int, set<Native>>
  {
    if answer.Failed? then map[]
    else map i | 0 <= i < |p.fds| && answer.revents(p.fds[i].fd) != {} :: p.fds[i].fd := answer.revents(p.fds[i].fd)
  }

  ghost function Note(l: Log, p: Poller, c: Call): Log
  {
    var o := Do(p, c).1;
    var m := if c.Removes? then l.(batch := l.batch - {c.fd})
             else if CallsPoll(p, c) then Log(Batch(p, c.answer), []) else l;
    if o.Delivered? then m.(handed := m.handed + [o.event]) else m
  }

  // ---- The log and the view agree ----

  ghost predicate Handed(l: Log, fd: int)
  {
    exists i :: 0 <= i < |l.handed| && l.handed[i].fd == fd
  }

  ghost predicate Undelivered(s: Slot, l: Log)
  {
    s.fd in l.batch && l.batch[s.fd] == s.revents && !Handed(l, s.fd)
  }

  ghost predicate Accounted(s: Slot, l: Log)
    requires s.fd in l.batch
  {
    s.revents == l.batch[s.fd] || Event(s.fd, FromNative(l.batch[s.fd])) in l.handed
  }

  ghost predicate DistinctSockets(handed: seq<Event>)
  {
    forall i, j :: 0 <= i < j < |handed| ==> handed[i].fd != handed[j].fd
  }

  ghost predicate LogOk(v: map<int, Slot>, l: Log)
  {
    && DistinctSockets(l.handed)
    && (forall fd :: fd in v ==> v[fd].fd == fd)
    && (forall fd :: fd in v && v[fd].revents != {} ==> Undelivered(v[fd], l))
    && (forall fd :: fd in l.batch ==> fd in v && l.batch[fd] != {} && Accounted(v[fd], l))
  }

  lemma LogHandOut(v: map<int, Slot>, l: Log, e: Event, w: map<int, Slot>)
    requires LogOk(v, l) && HandsOut(v, e, w)
    ensures LogOk(w, l.(handed := l.handed + [e]))
  {
  }

  lemma LogChange(v: map<int, Slot>, l: Log, s: Slot)
    requires LogOk(v, l) && (s.fd in v ==> s.revents == v[s.fd].revents) && (s.fd !in v ==> s.revents == {})
    ensures LogOk(v[s.fd := s], l)
  {
  }

  lemma LogRemove(v: map<int, Slot>, l: Log, fd: int)
    requires LogOk(v, l)
    ensures LogOk(v - {fd}, l.(batch := l.batch - {fd}))
  {
  }

  lemma LogFresh(p: Poller, answer: Answer)
    requires TableOk(p) && Quiet(View(p))
    ensures LogOk(if answer.Failed? then View(p) else Refreshed(View(p), answer.revents), Log(Batch(p, answer), []))
  {
  }

  // ---- Every run ----

  lemma WaitLog(p: Poller, l: Log, answer: Answer)
    requires Inv(p) && LogOk(View(p), l)
    ensures Inv(Do(p, Waiting(answer)).0) && LogOk(View(Do(p, Waiting(answer)).0), Note(l, p, Waiting(answer)))
  {
    hide FindNextEvent, CallPoll, Pending, TableOk, View, LogOk, HandsOut, Batch, Quiet, Refreshed;
    WaitView(p, answer);
    var (q, o) := WaitForNextEvent(p, answer);
    if p.fds != [] {
      FindView(p);
      if CallsPoll(p, Waiting(answer)) {
        LogFresh(p, answer);
        NonEmptyView(p);
        if o.Delivered? {
          LogHandOut(Refreshed(View(p), answer.revents), Log(Batch(p, answer), []), o.event, View(q));
        }
      } else {
        HandsOutNotQuiet(View(p), FindNextEvent(p).1.value, View(FindNextEvent(p).0));
        LogHandOut(View(p), l, o.event, View(q));
      }
    }
  }

  lemma StepLog(p: Poller, l: Log, c: Call)
    requires Inv(p) && LogOk(View(p), l) && Allowed(p, c)
    ensures Inv(Do(p, c).0) && LogOk(View(Do(p, c).0), Note(l, p, c))
  {
    hide FindNextEvent, WaitForNextEvent, Pending, TableOk, View, LogOk, Batch, ChangeEventSet, Add, Remove, ToNative;
    match c
    case Adds(fd, flags) => {
      AddView(p, fd, flags);
      if fd !in View(p) {
        LogChange(View(p), l, Slot(fd, ToNative(flags), {}));
      }
    }
    case Removes(fd) => {
      RemoveView(p, fd);
      LogRemove(View(p), l, fd);
    }
    case Changes(fd, flags) => {
      ChangeView(p, fd, flags);
      if fd in View(p) {
        SlotNamed(p, fd);
        LogChange(View(p), l, View(p)[fd].(events := ToNative(flags)));
      }
    }
    case Waiting(answer) => WaitLog(p, l, answer);
  }

  lemma SlotNamed(p: Poller, fd: int)
    requires TableOk(p) && fd in View(p)
    ensures View(p)[fd].fd == fd
  {
  }

  ghost predicate AllowedRun(p: Poller, calls: seq<Call>)
    decreases |calls|
  {
    calls == [] || (Allowed(p, calls[0]) && AllowedRun(Do(p, calls[0]).0, calls[1..]))
  }

  ghost function Run(p: Poller, l: Log, calls: seq<Call>): (Poller, Log)
    decreases |calls|
  {
    if calls == [] then (p, l) else Run(Do(p, calls[0]).0, Note(l, p, calls[0]), calls[1..])
  }

  lemma {:induction false} RunLog(p: Poller, l: Log, calls: seq<Call>)
    requires Inv(p) && LogOk(View(p), l) && AllowedRun(p, calls)
    ensures Inv(Run(p, l, calls).0) && LogOk(View(Run(p, l, calls).0), Run(p, l, calls).1)
    decreases |calls|
  {
    hide Inv, LogOk, Do, Note, View, Allowed, TableOk;
    if calls != [] {
      StepLog(p, l, calls[0]);
      RunLog(Do(p, calls[0]).0, Note(l, p, calls[0]), calls[1..]);
    }
  }

  ghost predicate ExactlyOnce(handed: seq<Event>, e: Event)
  {
    exists i :: 0 <= i < |handed| && handed[i] == e && forall j :: 0 <= j < |handed| && handed[j].fd == e.fd ==> j == i
  }

  /** Whatever was called before: the table names every socket's exact slot and the unread count covers
      all pending events; no socket is reported twice between two calls of poll(); and when poll() is
      called again, every event it found before, whose socket stayed registered, was reported once. */
  lemma EachEventOnce(capacity: nat, calls: seq<Call>, next: Call)
    requires AllowedRun(Empty(capacity), calls)
    ensures var (p, l) := Run(Empty(capacity), Log(map[], []), calls);
            && Inv(p) && DistinctSockets(l.handed)
            && (CallsPoll(p, next) ==>
                  forall fd :: fd in l.batch ==> ExactlyOnce(l.handed, Event(fd, FromNative(l.batch[fd]))))
  {
    hide Run, AllowedRun, FromNative, FindNextEvent, Pending;
    assert Inv(Empty(capacity)) by {
      PendingNone([]);
    }
    RunLog(Empty(capacity), Log(map[], []), calls);
    var (p, l) := Run(Empty(capacity), Log(map[], []), calls);
    if CallsPoll(p, next) {
      FindView(p);
      forall fd | fd in l.batch ensures ExactlyOnce(l.handed, Event(fd, FromNative(l.batch[fd]))) {
        assert Accounted(View(p)[fd], l);
      }
    }
  }

  /** Only a registered socket is ever reported. */
  lemma DeliveredIsRegistered(p: Poller, answer: Answer)
    requires Inv(p) && WaitForNextEvent(p, answer).1.Delivered?
    ensures WaitForNextEvent(p, answer).1.event.fd in p.table
  {
  }

  /** Waiting registers and removes nothing. */
  lemma WaitSockets(p: Poller, answer: Answer)
    requires Inv(p)
    ensures WaitForNextEvent(p, answer).0.table == p.table && WaitForNextEvent(p, answer).0.capacity == p.capacity
  {
  }
}

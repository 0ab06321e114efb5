/** CPoll as a value: the pollfd list, the table from socket to slot, and the events of the last
    poll call that have not been handed out yet. */
module Poll {
  import opened Options
  import FastHash

  datatype Flag = Read | Write | RdHup | Hup | Pri | Error

  /** The operating system's flags: those the interface knows, and others such as POLLNVAL. */
  datatype Native = Known(flag: Flag) | Other(bit: nat)

  function ToNative(flags: set<Flag>): set<Native>
  {
    set f | f in flags :: Known(f)
  }

  function FromNative(flags: set<Native>): set<Flag>
  {
    set n | n in flags && n.Known? :: n.flag
  }

  datatype Slot = Slot(fd: int, events: set<Native>, revents: set<Native>)

  datatype Event = Event(fd: int, flags: set<Flag>)

  /** `table` maps a socket to its slot; it holds at most `capacity` sockets. */
  datatype Poller = Poller(fds: seq<Slot>, table: map<int, nat>, capacity: nat, rotation: nat, unread: nat)

  function Empty(capacity: nat): Poller
  {
    Poller([], map[], capacity, 0, 0)
  }

  // ---- Registration ----

  /** The table ignores an insertion when it is full, and Add does not look. */
  function Add(p: Poller, fd: int, flags: set<Flag>): (Poller, bool)
  {
    if fd in p.table then (p, false)
    else
      (p.(fds := p.fds + [Slot(fd, ToNative(flags), {})],
          table := if |p.table| < p.capacity then p.table[fd := |p.fds|] else p.table), true)
  }

  /** The slot of `fd`, when the table and the list agree on it. */
  predicate Registered(p: Poller, fd: int)
  {
    fd in p.table && p.table[fd] < |p.fds| && p.fds[p.table[fd]].fd == fd
  }

  /** Moves the last slot into the freed one. */
  function Remove(p: Poller, fd: int): (Poller, bool)
  {
    if !Registered(p, fd) then (p, false)
    else
      var pos, last := p.table[fd], p.fds[|p.fds| - 1];
      var table := if pos != |p.fds| - 1 && last.fd in p.table then p.table[last.fd := pos] else p.table;
      (p.(fds := p.fds[pos := last][..|p.fds| - 1], table := table - {fd}), true)
  }

  function ChangeEventSet(p: Poller, fd: int, flags: set<Flag>): (Poller, bool)
  {
    if !Registered(p, fd) then (p, false)
    else
      var pos := p.table[fd];
      (p.(fds := p.fds[pos := p.fds[pos].(events := ToNative(flags))]), true)
  }

  // ---- Waiting ----

  /** What poll() did: it failed, or it filled in the events of every socket. */
  datatype Answer = Failed | Filled(revents: int -> set<Native>)

  datatype Outcome = Delivered(event: Event) | Nothing | Failure

  function Pending(fds: seq<Slot>): nat
  {
    if fds == [] then 0 else Pending(fds[1..]) + if fds[0].revents != {} then 1 else 0
  }

  /** The slot looked at in turn k. */
  function Turn(k: nat, rotation: nat, size: nat): (i: nat)
    requires size > 0
    ensures i < size
  {
    (k + rotation) % size
  }

  /** The first turn from k on whose slot has events, or as many turns as there are slots. */
  function Scan(fds: seq<Slot>, rotation: nat, k: nat): (r: nat)
    requires k <= |fds|
    ensures k <= r <= |fds|
    ensures r < |fds| ==> fds[Turn(r, rotation, |fds|)].revents != {}
    ensures forall i :: k <= i < r ==> fds[Turn(i, rotation, |fds|)].revents == {}
    decreases |fds| - k
  {
    hide Turn;
    if k == |fds| || fds[Turn(k, rotation, |fds|)].revents != {} then k else Scan(fds, rotation, k + 1)
  }

  function Rotation(p: Poller): nat
  {
    if p.rotation >= |p.fds| then 0 else p.rotation
  }

  function Clear(fds: seq<Slot>, i: nat): seq<Slot>
    requires i < |fds|
  {
    fds[i := fds[i].(revents := {})]
  }

  function FindNextEvent(p: Poller): (Poller, Option<Event>)
  {
    if p.unread == 0 then (p, None)
    else
      var rotation := Rotation(p);
      var k := Scan(p.fds, rotation, 0);
      if k == |p.fds| then (p.(rotation := rotation), None)
      else
        var i := Turn(k, rotation, |p.fds|);
        (p.(fds := Clear(p.fds, i), rotation := rotation + 1, unread := p.unread - 1),
         Some(Event(p.fds[i].fd, FromNative(p.fds[i].revents))))
  }

  /** The slots after a successful poll(). */
  function Fill(fds: seq<Slot>, revents: int -> set<Native>): (r: seq<Slot>)
    ensures |r| == |fds|
    ensures forall i :: 0 <= i < |fds| ==> r[i] == fds[i].(revents := revents(fds[i].fd))
  {
    seq(|fds|, i requires 0 <= i < |fds| => fds[i].(revents := revents(fds[i].fd)))
  }

  function CallPoll(p: Poller, answer: Answer): (Poller, Outcome)
  {
    match answer
    case Failed => (p.(unread := 0), Failure)
    case Filled(revents) =>
      var fds := Fill(p.fds, revents);
      var q := p.(fds := fds, unread := Pending(fds));
      if q.unread == 0 then (q, Nothing)
      else
        var (r, e) := FindNextEvent(q);
        (r, if e.Some? then Delivered(e.value) else Nothing)
  }

  function WaitForNextEvent(p: Poller, answer: Answer): (Poller, Outcome)
  {
    if p.fds == [] then (p, Nothing)
    else
      var (q, e) := FindNextEvent(p);
      if e.Some? then (q, Delivered(e.value)) else CallPoll(q, answer)
  }

  // ---- What every operation keeps ----

  /** The table names the exact slot of every registered socket and nothing else. */
  ghost predicate TableOk(p: Poller)
  {
    && |p.table| == |p.fds|
    && (forall i :: 0 <= i < |p.fds| ==> p.fds[i].fd in p.table && p.table[p.fds[i].fd] == i)
    && (forall fd :: fd in p.table ==> p.table[fd] < |p.fds| && p.fds[p.table[fd]].fd == fd)
  }

  ghost predicate Inv(p: Poller)
  {
    TableOk(p) && p.unread >= Pending(p.fds)
  }

  lemma {:induction false} PendingAppend(a: seq<Slot>, b: seq<Slot>)
    ensures Pending(a + b) == Pending(a) + Pending(b)
  {
    if a == [] {
      assert a + b == b;
    } else {
      assert (a + b)[1..] == a[1..] + b;
      PendingAppend(a[1..], b);
    }
  }

  lemma PendingUpdate(fds: seq<Slot>, i: nat, s: Slot)
    requires i < |fds|
    ensures Pending(fds[i := s]) + Pending([fds[i]]) == Pending(fds) + Pending([s])
  {
    var l, r := fds[..i], fds[i + 1..];
    assert fds == l + [fds[i]] + r;
    assert fds[i := s] == l + [s] + r;
    PendingAppend(l + [fds[i]], r);
    PendingAppend(l, [fds[i]]);
    PendingAppend(l + [s], r);
    PendingAppend(l, [s]);
  }

  lemma PendingOne(s: Slot)
    ensures Pending([s]) == if s.revents != {} then 1 else 0
  {
  }

  lemma {:induction false} PendingNone(fds: seq<Slot>)
    ensures Pending(fds) == 0 <==> forall i :: 0 <= i < |fds| ==> fds[i].revents == {}
  {
    if fds != [] {
      PendingNone(fds[1..]);
      if forall i :: 0 <= i < |fds| - 1 ==> fds[1..][i].revents == {} {
        assert forall i :: 1 <= i < |fds| ==> fds[i] == fds[1..][i - 1];
      }
    }
  }

  /** Every slot has its turn. */
  lemma TurnOf(i: nat, rotation: nat, size: nat) returns (k: nat)
    requires i < size && rotation < size
    ensures k < size && Turn(k, rotation, size) == i
  {
    k := if i >= rotation then i - rotation else i + size - rotation;
    FastHash.WrapIsMod(k + rotation, size);
  }

  /** Scanning finds something unless nothing is there, wherever it starts. */
  lemma ScanFinds(fds: seq<Slot>, rotation: nat)
    requires fds != [] && rotation < |fds|
    ensures Scan(fds, rotation, 0) == |fds| <==> Pending(fds) == 0
  {
    hide Turn, Scan, Pending;
    var r := Scan(fds, rotation, 0);
    PendingNone(fds);
    if r == |fds| {
      forall i | 0 <= i < |fds| ensures fds[i].revents == {} {
        var k := TurnOf(i, rotation, |fds|);
      }
    }
  }

  /** Registering keeps the table exact if and only if there is room in it. */
  lemma AddKeeps(p: Poller, fd: int, flags: set<Flag>)
    requires Inv(p) && fd !in p.table
    ensures Inv(Add(p, fd, flags).0) <==> |p.fds| < p.capacity
  {
    var q := Add(p, fd, flags).0;
    PendingAppend(p.fds, [Slot(fd, ToNative(flags), {})]);
    PendingOne(Slot(fd, ToNative(flags), {}));
    assert q.fds[|p.fds|].fd == fd;
    if |p.fds| < p.capacity {
      assert forall i :: 0 <= i < |p.fds| ==> q.fds[i] == p.fds[i];
    }
  }

  lemma RemoveTable(p: Poller, fd: int)
    requires TableOk(p) && fd in p.table
    ensures TableOk(Remove(p, fd).0) && Remove(p, fd).1
    ensures Remove(p, fd).0.table.Keys == p.table.Keys - {fd}
  {
  }

  /** The freed slot's events go with it, so the count of unread events may stay too high. */
  lemma RemoveKeeps(p: Poller, fd: int)
    requires Inv(p)
    ensures Inv(Remove(p, fd).0)
    ensures Remove(p, fd).1 <==> fd in p.table
  {
    if fd in p.table {
      RemoveTable(p, fd);
      var pos, n := p.table[fd], |p.fds| - 1;
      PendingUpdate(p.fds, pos, p.fds[n]);
      var moved := p.fds[pos := p.fds[n]];
      assert moved == moved[..n] + [p.fds[n]];
      PendingAppend(moved[..n], [p.fds[n]]);
    }
  }

  lemma ChangeKeeps(p: Poller, fd: int, flags: set<Flag>)
    requires Inv(p)
    ensures Inv(ChangeEventSet(p, fd, flags).0)
    ensures ChangeEventSet(p, fd, flags).1 <==> fd in p.table
  {
    if fd in p.table {
      var pos := p.table[fd];
      var s := p.fds[pos].(events := ToNative(flags));
      PendingUpdate(p.fds, pos, s);
      PendingOne(s);
      PendingOne(p.fds[pos]);
    }
  }

  /** Clearing or filling events moves no socket. */
  lemma SameSockets(p: Poller, q: Poller)
    requires TableOk(p) && p.table == q.table && |p.fds| == |q.fds|
    requires forall i :: 0 <= i < |p.fds| ==> q.fds[i].fd == p.fds[i].fd
    ensures TableOk(q)
  {
  }

  /** An event is found exactly when one is pending. */
  lemma FindKeeps(p: Poller)
    requires Inv(p) && p.fds != []
    ensures Inv(FindNextEvent(p).0)
    ensures FindNextEvent(p).1.None? <==> Pending(p.fds) == 0
    ensures FindNextEvent(p).1.None? ==> FindNextEvent(p).0.fds == p.fds
  {
    hide Turn, Scan, Pending;
    if p.unread != 0 {
      var rotation := Rotation(p);
      ScanFinds(p.fds, rotation);
      var k := Scan(p.fds, rotation, 0);
      if k != |p.fds| {
        var i := Turn(k, rotation, |p.fds|);
        PendingUpdate(p.fds, i, p.fds[i].(revents := {}));
        PendingOne(p.fds[i]);
        PendingOne(p.fds[i].(revents := {}));
        SameSockets(p, FindNextEvent(p).0);
      }
    }
  }

  /** Before slot `i` when one begins at slot `start` and goes around. */
  predicate Precedes(start: nat, i: nat, j: nat)
  {
    if i >= start then start <= j < i else j >= start || j < i
  }

  /** The event found is that of the first socket with one, in turn from where the rotation stands; the next search
      begins one further. */
  lemma FoundInTurn(p: Poller) returns (i: nat)
    requires Inv(p) && FindNextEvent(p).1.Some?
    ensures var start := if p.rotation < |p.fds| then p.rotation else 0;
            && i < |p.fds| && p.fds[i].revents != {} && FindNextEvent(p).1.value.fd == p.fds[i].fd
            && (forall j :: 0 <= j < |p.fds| && Precedes(start, i, j) ==> p.fds[j].revents == {})
            && FindNextEvent(p).0.rotation == start + 1
  {
    hide Pending, TableOk;
    var start, n := Rotation(p), |p.fds|;
    var k := Scan(p.fds, start, 0);
    i := Turn(k, start, n);
    forall j | 0 <= j < n && Precedes(start, i, j) ensures p.fds[j].revents == {} {
      var l := TurnOf(j, start, n);
      TurnIs(k, start, n);
      TurnIs(l, start, n);
      hide Turn;
      assert p.fds[Turn(l, start, n)].revents == {};
    }
  }

  lemma TurnIs(k: nat, start: nat, n: nat)
    requires k < n && start < n
    ensures Turn(k, start, n) == if k + start < n then k + start else k + start - n
  {
    FastHash.WrapIsMod(k + start, n);
  }

  /** The interface's flags come back from the operating system's as they went. */
  lemma FlagsComeBack(flags: set<Flag>, more: set<Native>)
    ensures forall f :: Known(f) in ToNative(flags) <==> f in flags
    ensures forall f :: f in FromNative(more) <==> Known(f) in more
    ensures FromNative(ToNative(flags)) == flags
  {
    assert forall f :: Known(f) in ToNative(flags) <==> f in flags;
    forall f ensures f in FromNative(more) <==> Known(f) in more {
      if Known(f) in more {
        assert Known(f).flag == f;
      }
    }
    forall f ensures f in FromNative(ToNative(flags)) <==> f in flags {
      if f in flags {
        assert Known(f) in ToNative(flags);
      }
    }
  }

  lemma FillKeeps(p: Poller, revents: int -> set<Native>)
    requires TableOk(p)
    ensures Inv(p.(fds := Fill(p.fds, revents), unread := Pending(Fill(p.fds, revents))))
  {
  }

  lemma CallKeeps(p: Poller, answer: Answer)
    requires Inv(p) && p.fds != [] && Pending(p.fds) == 0
    ensures Inv(CallPoll(p, answer).0)
  {
    hide Pending, FindNextEvent, Fill;
    if answer.Filled? {
      FillKeeps(p, answer.revents);
      FindKeeps(p.(fds := Fill(p.fds, answer.revents), unread := Pending(Fill(p.fds, answer.revents))));
    }
  }

  lemma WaitKeeps(p: Poller, answer: Answer)
    requires Inv(p)
    ensures Inv(WaitForNextEvent(p, answer).0)
  {
    hide Pending, FindNextEvent, CallPoll, TableOk;
    if p.fds != [] {
      FindKeeps(p);
      if FindNextEvent(p).1.None? {
        CallKeeps(FindNextEvent(p).0, answer);
      }
    }
  }
}

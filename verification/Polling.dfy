/** CPoll as it runs: the pollfd list, and the hash table from socket to place in it. */
module Polling {
  import opened Options
  import opened Poll
  import PollRuns
  import opened SocketTables

  class CPoll {
    var fds: seq<Slot>
    const table: SocketTable
    var rotation: nat
    var unread: nat

    ghost function Model(): Poller
      reads this, table
    {
      Poller(fds, table.m, table.hash.fsize, rotation, unread)
    }

    ghost function Repr(): set<object>
    {
      {this} + table.Repr()
    }

    /** Every socket's place is in the table, and the unread count covers all pending events. */
    ghost predicate Valid()
      reads this, table, table.hash, table.hash.keys, table.hash.vals, table.hash.next, table.hash.table,
            table.hash.index
    {
      table.Valid() && Inv(Model())
    }

    constructor (maxSockets: nat)
      requires maxSockets > 0
      ensures Valid() && Model() == Empty(maxSockets) && fresh(Repr())
    {
      hide SocketTable.Valid;
      table := new SocketTable(maxSockets);
      fds, rotation, unread := [], 0, 0;
      new;
      EmptyInv(maxSockets);
    }

    /** Succeeds exactly for a socket that is not registered yet; it then has nothing pending. A full table
        takes no entry, and nobody is told. */
    method Add(fd: int, flags: set<Flag>) returns (ok: bool)
      requires Valid()
      modifies Repr()
      ensures table.Valid() && (Model(), ok) == Poll.Add(old(Model()), fd, flags)
      ensures ok <==> fd !in PollRuns.View(old(Model()))
      ensures |old(fds)| < table.hash.fsize || !ok ==> Valid()
      ensures |old(fds)| < table.hash.fsize && ok ==>
                PollRuns.View(Model()) == PollRuns.View(old(Model()))[fd := Slot(fd, ToNative(flags), {})]
    {
      hide Pending, TableOk, SocketTable.Valid;
      if |fds| < table.hash.fsize {
        PollRuns.AddView(Model(), fd, flags);
      }
      var found := table.Lookup(fd);
      if found.Some? {
        return false;
      }
      var pos := |fds|;
      fds := fds + [Slot(fd, ToNative(flags), {})];
      var inserted := table.Insert(fd, pos);
      ok := true;
    }

    /** Succeeds exactly for a registered socket; every other one keeps its flags and pending events, though
        the last of the list has moved into the freed place. */
    method Remove(fd: int) returns (ok: bool)
      requires Valid()
      modifies Repr()
      ensures Valid() && (Model(), ok) == Poll.Remove(old(Model()), fd)
      ensures ok <==> fd in PollRuns.View(old(Model()))
      ensures PollRuns.View(Model()) == PollRuns.View(old(Model())) - {fd}
    {
      hide Pending, TableOk, PollRuns.View, SocketTable.Valid;
      PollRuns.RemoveView(Model(), fd);
      if |fds| == 0 {
        return false;
      }
      LastIsRegistered(Model());
      var found := table.Lookup(fd);
      if found.None? || found.value >= |fds| || fds[found.value].fd != fd {
        return false;
      }
      var pos, size := found.value, |fds|;
      if pos != size - 1 {
        var last := fds[size - 1];
        fds := fds[pos := last];
        table.Assign(last.fd, pos);
      }
      var removed := table.Remove(fd);
      assert fds[..size - 1] == old(fds)[pos := old(fds)[size - 1]][..size - 1];
      fds := fds[..size - 1];
      ok := true;
    }

    method ChangeEventSet(fd: int, flags: set<Flag>) returns (ok: bool)
      requires Valid()
      modifies this
      ensures Valid() && (Model(), ok) == Poll.ChangeEventSet(old(Model()), fd, flags)
      ensures ok <==> fd in PollRuns.View(old(Model()))
      ensures ok ==> PollRuns.View(Model())
                     == PollRuns.View(old(Model()))[fd := PollRuns.View(old(Model()))[fd].(events := ToNative(flags))]
    {
      hide Pending, TableOk, PollRuns.View, SocketTable.Valid;
      PollRuns.ChangeView(Model(), fd, flags);
      var found := table.Lookup(fd);
      if found.None? || found.value >= |fds| || fds[found.value].fd != fd {
        return false;
      }
      var pos := found.value;
      fds := fds[pos := fds[pos].(events := ToNative(flags))];
      ok := true;
    }

    method FindNextEvent() returns (e: Option<Event>)
      requires Valid() && fds != []
      modifies this
      ensures Valid() && (Model(), e) == Poll.FindNextEvent(old(Model()))
    {
      hide Turn, FromNative, TableOk, Pending, SocketTable.Valid;
      FindKeeps(Model());
      if unread == 0 {
        return None;
      }
      if rotation >= |fds| {
        rotation := 0;
      }
      var k := 0;
      while k < |fds|
        invariant k <= |fds| && rotation == Rotation(old(Model()))
        invariant fds == old(fds) && unread == old(unread)
        invariant Scan(fds, rotation, k) == Scan(fds, rotation, 0)
      {
        var i := Turn(k, rotation, |fds|);
        if fds[i].revents != {} {
          e := Some(Event(fds[i].fd, FromNative(fds[i].revents)));
          fds := fds[i := fds[i].(revents := {})];
          rotation, unread := rotation + 1, unread - 1;
          return;
        }
        k := k + 1;
      }
      e := None;
    }

    /** The operating system's part: it fills in the events and counts the sockets that have any. */
    method CallPoll(answer: Answer) returns (ret: int)
      modifies this`fds
      ensures answer.Failed? ==> ret == -1 && fds == old(fds)
      ensures answer.Filled? ==> ret == Pending(fds) && fds == Fill(old(fds), answer.revents)
    {
      match answer
      case Failed => ret := -1;
      case Filled(revents) =>
        fds := Fill(fds, revents);
        ret := Pending(fds);
    }

    /** A left-over event is handed out first; poll() is called exactly when none is left. */
    method WaitForNextEvent(answer: Answer) returns (o: Outcome)
      requires Valid()
      modifies this
      ensures Valid() && (Model(), o) == Poll.WaitForNextEvent(old(Model()), answer)
      ensures PollRuns.Waits(PollRuns.View(old(Model())), answer, o, PollRuns.View(Model()))
    {
      hide Poll.FindNextEvent, Pending, Fill, TableOk, PollRuns.View, PollRuns.Waits, SocketTable.Valid;
      PollRuns.WaitView(Model(), answer);
      if |fds| == 0 {
        return Nothing;
      }
      FindKeeps(Model());
      var e := FindNextEvent();
      if e.None? {
        ghost var scanned := Model();
        unread := 0;
        var ret := CallPoll(answer);
        if ret < 0 {
          return Failure;
        }
        unread := ret;
        if ret == 0 {
          return Nothing;
        }
        FillKeeps(scanned, answer.revents);
        e := FindNextEvent();
      }
      o := if e.Some? then Delivered(e.value) else Nothing;
    }
  }

  lemma EmptyInv(capacity: nat)
    ensures Inv(Empty(capacity))
  {
  }

  lemma LastIsRegistered(p: Poller)
    requires TableOk(p) && p.fds != []
    ensures p.fds[|p.fds| - 1].fd in p.table
  {
  }
}

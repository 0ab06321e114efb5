/** What becomes of a TCP connection while one event is handled, from the results of recv, send, the request handler
    and the poller alone. */
module Outcomes {
  import opened Bits
  import opened Options
  import opened Wire
  import opened Incremental
  import opened MessageBytes
  import opened Connections

  // ---- The other end ----

  /** While draining, recv reports that the other end has closed, or fails. */
  ghost predicate PeerLeaves(drains: seq<Recv>)
  {
    exists i :: 0 <= i < |drains| && Arrive(drains, i) && Ends(drains[i])
  }

  /** The first `n` results are bytes. */
  ghost predicate Arrive(recvs: seq<Recv>, n: nat)
    requires n <= |recvs|
  {
    forall j :: 0 <= j < n ==> recvs[j].Data? && recvs[j].bytes != []
  }

  predicate Ends(r: Recv)
  {
    r.Broken? || (r.Data? && r.bytes == [])
  }

  lemma ArriveRest(recvs: seq<Recv>, n: nat)
    requires 0 < n <= |recvs|
    ensures Arrive(recvs, n) <==> recvs[0].Data? && recvs[0].bytes != [] && Arrive(recvs[1..], n - 1)
  {
    if recvs[0].Data? && recvs[0].bytes != [] && Arrive(recvs[1..], n - 1) {
      forall j | 0 <= j < n ensures recvs[j].Data? && recvs[j].bytes != [] {
        assert j > 0 ==> recvs[j] == recvs[1..][j - 1];
      }
    }
  }

  lemma {:induction false} DrainIff(drains: seq<Recv>)
    ensures ConsumeRemoteClose(drains) <==> !PeerLeaves(drains)
    decreases |drains|
  {
    hide Ends, Arrive;
    if drains != [] {
      assert Ends(drains[0]) <==> drains[0].Broken? || (drains[0].Data? && drains[0].bytes == []) by {
        EndsIs(drains[0]);
      }
      NothingArrives(drains);
      if drains[0].Data? && drains[0].bytes != [] {
        DrainIff(drains[1..]);
        LeavesRest(drains);
      } else if drains[0].NothingYet? {
        NoLeaving(drains);
      }
    }
  }

  lemma EndsIs(r: Recv)
    ensures Ends(r) <==> r.Broken? || (r.Data? && r.bytes == [])
  {
  }

  lemma NothingArrives(recvs: seq<Recv>)
    ensures Arrive(recvs, 0)
  {
  }

  lemma LeavesRest(drains: seq<Recv>)
    requires drains != [] && drains[0].Data? && drains[0].bytes != []
    ensures PeerLeaves(drains) <==> PeerLeaves(drains[1..])
  {
    hide Arrive;
    if PeerLeaves(drains) {
      var i :| 0 <= i < |drains| && Arrive(drains, i) && Ends(drains[i]);
      assert i > 0;
      ArriveRest(drains, i);
      assert drains[i] == drains[1..][i - 1];
    }
    if PeerLeaves(drains[1..]) {
      var i :| 0 <= i < |drains[1..]| && Arrive(drains[1..], i) && Ends(drains[1..][i]);
      ArriveRest(drains, i + 1);
      assert drains[i + 1] == drains[1..][i];
    }
  }

  lemma NoLeaving(drains: seq<Recv>)
    requires drains != [] && drains[0].NothingYet?
    ensures !PeerLeaves(drains)
  {
  }

  // ---- Sending ----

  predicate Takes(s: Sent)
  {
    s.Took? && s.count > 0
  }

  /** The bytes send takes before it blocks or fails. */
  function Taken(sends: seq<Sent>): nat
  {
    if sends == [] || !Takes(sends[0]) then 0 else sends[0].count + Taken(sends[1..])
  }

  /** send fails, or takes nothing, before it blocks. */
  ghost predicate SendFails(sends: seq<Sent>)
  {
    exists i :: 0 <= i < |sends| && FailsAt(sends, i)
  }

  ghost predicate FailsAt(sends: seq<Sent>, i: nat)
    requires i < |sends|
  {
    (forall j :: 0 <= j < i ==> Takes(sends[j])) && (sends[i].Refused? || sends[i] == Took(0))
  }

  lemma FailsRest(sends: seq<Sent>)
    requires sends != []
    ensures Takes(sends[0]) ==> (SendFails(sends) <==> SendFails(sends[1..]))
    ensures !Takes(sends[0]) ==> (SendFails(sends) <==> !sends[0].Blocked?)
  {
    hide Takes;
    TakesIs(sends[0]);
    assert !Takes(sends[0]) && !sends[0].Blocked? ==> FailsAt(sends, 0);
    var t := sends[1..];
    if Takes(sends[0]) && SendFails(sends) {
      var i :| 0 <= i < |sends| && FailsAt(sends, i);
      assert forall j :: 0 <= j < i - 1 ==> t[j] == sends[j + 1];
      assert t[i - 1] == sends[i];
      assert FailsAt(t, i - 1);
    }
    if Takes(sends[0]) && SendFails(t) {
      var i :| 0 <= i < |t| && FailsAt(t, i);
      forall j | 0 <= j < i + 1 ensures Takes(sends[j]) {
        assert j > 0 ==> sends[j] == t[j - 1];
      }
      assert sends[i + 1] == t[i];
      assert FailsAt(sends, i + 1);
    }
  }

  lemma TakesIs(s: Sent)
    ensures Takes(s) <==> s.Took? && s.count > 0
  {
  }

  /** With `need` bytes to send the connection is kept: all of them go, the poller takes it back to reading, and the
      other end stays; or send blocks first. */
  ghost predicate Survives(io: Io, need: int)
  {
    if Taken(io.sends) >= need then io.toRead && !PeerLeaves(io.drains) else !SendFails(io.sends)
  }

  /** What sending does: as much of the response goes as send takes, and the connection closes when all of it went. */
  lemma {:induction false} SendingIs(service: Service, c: Connection, io: Io)
    requires ConnectionOk(service, c) && c.phase == Transmitting
    ensures var (d, kept) := WriteBytes(c, io);
            var total := c.tx + Taken(io.sends);
            && d.response == c.response
            && d.sent == (if total >= |c.response| then c.response else c.response[..total])
            && d.phase == (if total >= |c.response| then Closing else Transmitting)
            && (kept <==> Survives(io, |c.response| - c.tx))
    decreases |io.sends|
  {
    hide OneShot;
    if io.sends != [] {
      FailsRest(io.sends);
    }
    if io.sends != [] && Takes(io.sends[0]) {
      var k := Min(io.sends[0].count, |Rest(c)|);
      AdvanceOk(service, c, k);
      var d := Advance(c, k);
      if d.tx < |d.response| {
        SendingIs(service, d, io.(sends := io.sends[1..]));
      } else {
        DrainIff(io.drains);
      }
    }
  }

  // ---- Receiving ----

  /** How many bytes recv is asked for: up to the end of the header, then up to the end it announces. */
  function Wanted(s: seq<Byte>): int
  {
    if |s| < 20 then 20 - |s| else 20 + Announced(s) - |s|
  }

  /** The stream after the first `n` results. */
  function Heard(s: seq<Byte>, recvs: seq<Recv>, n: nat): seq<Byte>
    requires n <= |recvs|
    decreases n
  {
    if n == 0 || !recvs[0].Data? || Wanted(s) < 0 then s
    else Heard(s + recvs[0].bytes[..Min(|recvs[0].bytes|, Wanted(s))], recvs[1..], n - 1)
  }

  /** The beginning of a message that may still be accepted, as MessageBytes.StateFromBytes puts it. */
  ghost predicate Unfinished(s: seq<Byte>)
  {
    |s| < 20 || (HeaderHolds(s, true) && |s| < 20 + Announced(s))
  }

  ghost predicate Accepted(s: seq<Byte>)
  {
    |s| >= 20 && HeaderHolds(s, true) && |s| == 20 + Announced(s) && exists cuts :: BodyCuts(s, cuts)
  }

  /** The first `n` results are bytes, and the message was unfinished before each of them. */
  ghost predicate Flows(s: seq<Byte>, recvs: seq<Recv>, n: nat)
    requires n <= |recvs|
  {
    Arrive(recvs, n) && forall j :: 0 <= j < n ==> Unfinished(Heard(s, recvs, j))
  }

  /** The `n`-th result completes a message that is accepted. */
  ghost predicate Completes(s: seq<Byte>, recvs: seq<Recv>, n: nat)
  {
    0 < n <= |recvs| && Flows(s, recvs, n) && Accepted(Heard(s, recvs, n))
  }

  /** The `n`-th result makes the message one that is not accepted, or after `n` results recv reports an end. */
  ghost predicate Breaks(s: seq<Byte>, recvs: seq<Recv>, n: nat)
  {
    && n <= |recvs| && Flows(s, recvs, n)
    && if Unfinished(Heard(s, recvs, n)) then n < |recvs| && Ends(recvs[n])
       else n > 0 && !Accepted(Heard(s, recvs, n))
  }

  lemma StateIs(s: seq<Byte>)
    ensures OneShot(true, s).state == BodyValidated <==> Accepted(s)
    ensures OneShot(true, s).state == HeaderNotRead || OneShot(true, s).state == HeaderValidated <==> Unfinished(s)
    ensures Unfinished(s) ==> Needed(OneShot(true, s)) == Wanted(s) > 0
  {
    AcceptedIffBytes(true, s);
    StateOfOneShot(true, s);
    hide BodyCuts, HeaderHolds;
    NeededIs(s);
  }

  lemma NeededIs(s: seq<Byte>)
    ensures Unfinished(s) ==> Needed(OneShot(true, s)) == Wanted(s)
  {
    assert [] + s == s;
    hide ParseFrom, ReadHeader, HeaderHolds, Announced;
    if |s| >= 20 {
      HeaderIff(s, true);
    }
  }

  /** The first result, then the others. */
  lemma FlowsRest(s: seq<Byte>, recvs: seq<Recv>, n: nat)
    requires 0 < n <= |recvs| && Unfinished(s) && Wanted(s) > 0 && recvs[0].Data? && recvs[0].bytes != []
    ensures var t := s + recvs[0].bytes[..Min(|recvs[0].bytes|, Wanted(s))];
            && (Flows(s, recvs, n) <==> Flows(t, recvs[1..], n - 1))
            && Heard(s, recvs, n) == Heard(t, recvs[1..], n - 1)
  {
    hide Arrive, Unfinished, Wanted;
    ArriveRest(recvs, n);
    var t := s + recvs[0].bytes[..Min(|recvs[0].bytes|, Wanted(s))];
    assert forall j :: 0 < j < n ==> Heard(s, recvs, j) == Heard(t, recvs[1..], j - 1);
    assert Heard(s, recvs, 0) == s;
    if Flows(s, recvs, n) {
      forall j | 0 <= j < n - 1 ensures Unfinished(Heard(t, recvs[1..], j)) {
        assert Unfinished(Heard(s, recvs, j + 1));
      }
    }
  }

  lemma CompletesRest(s: seq<Byte>, recvs: seq<Recv>, n: nat)
    requires 1 < n <= |recvs| && Unfinished(s) && Wanted(s) > 0 && recvs[0].Data? && recvs[0].bytes != []
    ensures var t := s + recvs[0].bytes[..Min(|recvs[0].bytes|, Wanted(s))];
            Completes(s, recvs, n) <==> Completes(t, recvs[1..], n - 1)
  {
    hide Flows, Heard, Accepted, Unfinished, Wanted;
    FlowsRest(s, recvs, n);
  }

  lemma BreaksRest(s: seq<Byte>, recvs: seq<Recv>, n: nat)
    requires 0 < n <= |recvs| && Unfinished(s) && Wanted(s) > 0 && recvs[0].Data? && recvs[0].bytes != []
    ensures var t := s + recvs[0].bytes[..Min(|recvs[0].bytes|, Wanted(s))];
            Unfinished(t) || n > 1 ==> (Breaks(s, recvs, n) <==> Breaks(t, recvs[1..], n - 1))
  {
    hide Flows, Heard, Accepted, Unfinished, Wanted, Ends;
    FlowsRest(s, recvs, n);
    HeardNothing(s + recvs[0].bytes[..Min(|recvs[0].bytes|, Wanted(s))], recvs[1..]);
  }

  lemma HeardNothing(s: seq<Byte>, recvs: seq<Recv>)
    ensures Heard(s, recvs, 0) == s && Flows(s, recvs, 0)
  {
  }

  /** The results bring a complete message, are cut off, or the call blocks. */
  ghost predicate Completed(s: seq<Byte>, recvs: seq<Recv>) { exists n: nat :: Completes(s, recvs, n) }

  ghost predicate Broken(s: seq<Byte>, recvs: seq<Recv>) { exists n: nat :: Breaks(s, recvs, n) }

  lemma StopsAtOnce(s: seq<Byte>, recvs: seq<Recv>)
    requires Unfinished(s) && (recvs == [] || recvs[0].NothingYet? || Ends(recvs[0]))
    ensures !Completed(s, recvs)
    ensures Broken(s, recvs) <==> recvs != [] && Ends(recvs[0])
  {
    hide Unfinished, Accepted;
    HeardNothing(s, recvs);
    forall n: nat | 0 < n <= |recvs| ensures !Flows(s, recvs, n) {
      assert !Arrive(recvs, n);
    }
    if recvs != [] && Ends(recvs[0]) {
      assert Breaks(s, recvs, 0);
    }
  }

  /** The stream after the first result. */
  function Next(s: seq<Byte>, r: Recv): seq<Byte>
    requires r.Data? && Wanted(s) > 0
  {
    s + r.bytes[..Min(|r.bytes|, Wanted(s))]
  }

  lemma FirstFlows(s: seq<Byte>, recvs: seq<Recv>)
    requires recvs != [] && Unfinished(s) && Wanted(s) > 0 && recvs[0].Data? && recvs[0].bytes != []
    ensures Flows(s, recvs, 0) && Flows(s, recvs, 1)
    ensures Heard(s, recvs, 0) == s && Heard(s, recvs, 1) == Next(s, recvs[0])
    ensures forall n: nat :: 1 < n <= |recvs| && Flows(s, recvs, n) ==> Unfinished(Next(s, recvs[0]))
  {
    hide Unfinished, Wanted;
    HeardNothing(s, recvs);
    HeardNothing(Next(s, recvs[0]), recvs[1..]);
    FlowsRest(s, recvs, 1);
  }

  lemma FirstEndsIt(s: seq<Byte>, recvs: seq<Recv>)
    requires recvs != [] && Unfinished(s) && Wanted(s) > 0 && recvs[0].Data? && recvs[0].bytes != []
    requires !Unfinished(Next(s, recvs[0]))
    ensures forall n: nat :: Completes(s, recvs, n) <==> n == 1 && Accepted(Next(s, recvs[0]))
    ensures !Accepted(Next(s, recvs[0])) ==> Broken(s, recvs)
  {
    FirstFlows(s, recvs);
    hide Flows, Heard, Accepted, Unfinished, Wanted, Next;
    assert !Accepted(Next(s, recvs[0])) ==> Breaks(s, recvs, 1);
  }

  lemma FirstGoesOn(s: seq<Byte>, recvs: seq<Recv>)
    requires recvs != [] && Unfinished(s) && Wanted(s) > 0 && recvs[0].Data? && recvs[0].bytes != []
    requires Unfinished(Next(s, recvs[0])) && !Accepted(Next(s, recvs[0]))
    ensures var t := Next(s, recvs[0]);
            && (forall n: nat :: Completes(s, recvs, n) ==> n > 1 && Completes(t, recvs[1..], n - 1))
            && (forall n: nat :: Completes(s, recvs, n) ==> Heard(s, recvs, n) == Heard(t, recvs[1..], n - 1))
            && (Completed(s, recvs) <==> Completed(t, recvs[1..])) && (Broken(s, recvs) <==> Broken(t, recvs[1..]))
  {
    hide *;
    CompletesOn(s, recvs);
    BreaksOn(s, recvs);
  }

  lemma CompletesOn(s: seq<Byte>, recvs: seq<Recv>)
    requires recvs != [] && Unfinished(s) && Wanted(s) > 0 && recvs[0].Data? && recvs[0].bytes != []
    requires Unfinished(Next(s, recvs[0])) && !Accepted(Next(s, recvs[0]))
    ensures var t := Next(s, recvs[0]);
            && (forall n: nat :: Completes(s, recvs, n) ==> n > 1 && Completes(t, recvs[1..], n - 1))
            && (forall n: nat :: Completes(s, recvs, n) ==> Heard(s, recvs, n) == Heard(t, recvs[1..], n - 1))
            && (Completed(s, recvs) <==> Completed(t, recvs[1..]))
  {
    var t := Next(s, recvs[0]);
    hide Flows, Heard, Accepted, Unfinished, Wanted, Ends, Completes, Breaks;
    NotYet(s, recvs);
    forall n: nat | Completes(s, recvs, n)
      ensures n > 1 && Completes(t, recvs[1..], n - 1) && Heard(s, recvs, n) == Heard(t, recvs[1..], n - 1) {
      CompletesBounds(s, recvs);
      CompletesRest(s, recvs, n);
      FlowsRest(s, recvs, n);
    }
    if Completed(t, recvs[1..]) {
      var n: nat :| Completes(t, recvs[1..], n);
      CompletesBounds(t, recvs[1..]);
      CompletesRest(s, recvs, n + 1);
    }
  }

  lemma BreaksOn(s: seq<Byte>, recvs: seq<Recv>)
    requires recvs != [] && Unfinished(s) && Wanted(s) > 0 && recvs[0].Data? && recvs[0].bytes != []
    requires Unfinished(Next(s, recvs[0])) && !Accepted(Next(s, recvs[0]))
    ensures Broken(s, recvs) <==> Broken(Next(s, recvs[0]), recvs[1..])
  {
    var t := Next(s, recvs[0]);
    hide Flows, Heard, Accepted, Unfinished, Wanted, Ends, Completes, Breaks;
    NotYet(s, recvs);
    if Broken(s, recvs) {
      var n: nat :| Breaks(s, recvs, n);
      BreaksBounds(s, recvs, n);
      BreaksRest(s, recvs, n);
    }
    if Broken(t, recvs[1..]) {
      var n: nat :| Breaks(t, recvs[1..], n);
      BreaksBounds(t, recvs[1..], n);
      BreaksRest(s, recvs, n + 1);
    }
  }

  lemma NotYet(s: seq<Byte>, recvs: seq<Recv>)
    requires recvs != [] && Unfinished(s) && Wanted(s) > 0 && recvs[0].Data? && recvs[0].bytes != []
    requires Unfinished(Next(s, recvs[0])) && !Accepted(Next(s, recvs[0]))
    ensures !Completes(s, recvs, 1) && !Breaks(s, recvs, 0)
  {
    FirstFlows(s, recvs);
    hide Flows, Heard, Accepted, Unfinished, Wanted, Next;
  }

  lemma CompletesBounds(s: seq<Byte>, recvs: seq<Recv>)
    ensures forall n: nat :: Completes(s, recvs, n) ==> 0 < n <= |recvs|
  {
  }

  lemma BreaksBounds(s: seq<Byte>, recvs: seq<Recv>, n: nat)
    requires Breaks(s, recvs, n)
    ensures 0 <= n <= |recvs|
  {
  }

  /** What answering the message `r` does: the whole reply goes as far as send takes it. */
  ghost predicate Replied(service: Service, c: Connection, io: Io, r: Reader, d: Connection, kept: bool)
  {
    match service(c.peer, r)
    case None => !kept
    case Some(reply) =>
      && (kept <==> io.toWrite && Survives(io, |reply|))
      && (io.toWrite ==>
            && d.response == reply
            && d.sent == (if Taken(io.sends) >= |reply| then reply else reply[..Taken(io.sends)])
            && d.phase == (if Taken(io.sends) >= |reply| then Closing else Transmitting))
  }

  lemma AnsweringIs(service: Service, c: Connection, io: Io)
    requires c.reader == OneShot(true, c.reader.stream) && c.reader.state == BodyValidated
    requires c.tx == 0 && c.sent == [] && c.phase == Receiving
    ensures var (d, kept) := Answer(service, c, io); Replied(service, c, io, c.reader, d, kept)
  {
    hide OneShot, WriteBytes, Survives, Taken;
    match service(c.peer, c.reader)
    case None =>
    case Some(reply) =>
      var d := c.(response := reply, phase := Transmitting);
      assert d.response[..0] == [];
      SendingIs(service, d, io);
  }

  /** What receiving does: a message that is completed and accepted is answered; otherwise the connection is given
      up exactly when recv reports an end or what it brings is not accepted. */
  lemma {:induction false} ReceivingIs(service: Service, c: Connection, io: Io)
    requires ConnectionOk(service, c) && c.phase == Receiving
    ensures var (d, kept) := ReceiveBytes(service, c, io);
            var s := c.reader.stream;
            && (forall n: nat :: Completes(s, io.recvs, n) ==>
                  Replied(service, c, io, OneShot(true, Heard(s, io.recvs, n)), d, kept))
            && (!Completed(s, io.recvs) ==> (kept <==> !Broken(s, io.recvs)) && d.phase == Receiving && d.sent == [])
    decreases |io.recvs|
  {
    hide OneShot, Answer, Needed, Wanted, Hungry, Feed, Heard, Completes, Breaks, Unfinished, Accepted, Replied;
    hide Completed, Broken;
    var s, recvs := c.reader.stream, io.recvs;
    StateIs(s);
    ReceivingIsUnfinished(service, c);
    if recvs == [] || recvs[0].NothingYet? || Ends(recvs[0]) {
      StopsAtOnce(s, recvs);
      NoneCompletes(s, recvs);
    } else {
      var t := Next(s, recvs[0]);
      assert Chunk(c, recvs[0].bytes) == recvs[0].bytes[..Min(|recvs[0].bytes|, Wanted(s))];
      FeedOk(c.reader, Chunk(c, recvs[0].bytes));
      StateAfter(c.reader, Chunk(c, recvs[0].bytes));
      StateIs(t);
      var d := c.(reader := Feed(c.reader, Chunk(c, recvs[0].bytes)));
      if d.reader.state == ParseError {
        FirstEndsIt(s, recvs);
        NoneIsNone(s, recvs);
      } else if d.reader.state == BodyValidated {
        FirstEndsIt(s, recvs);
        FirstHeard(s, recvs);
        assert d.reader == OneShot(true, t);
        AnsweringIs(service, d, io);
        OneIsSome(s, recvs);
        SamePeer(service, c, d, io);
        var (e, kept) := Answer(service, d, io);
        assert (e, kept) == ReceiveBytes(service, c, io);
        assert Replied(service, c, io, OneShot(true, t), e, kept);
        forall n: nat | Completes(s, recvs, n)
          ensures Replied(service, c, io, OneShot(true, Heard(s, recvs, n)), e, kept) {
          assert n == 1;
        }
      } else {
        FirstGoesOn(s, recvs);
        ReceivingIs(service, d, io.(recvs := recvs[1..]));
        LaterReply(service, c, d, io);
        CompletesBounds(s, recvs);
        var (e, kept) := ReceiveBytes(service, d, io.(recvs := recvs[1..]));
        assert (e, kept) == ReceiveBytes(service, c, io);
        forall n: nat | Completes(s, recvs, n)
          ensures Replied(service, c, io, OneShot(true, Heard(s, recvs, n)), e, kept) {
          assert Completes(t, recvs[1..], n - 1);
        }
      }
    }
  }

  lemma ReceivingIsUnfinished(service: Service, c: Connection)
    requires ConnectionOk(service, c) && c.phase == Receiving
    ensures c.reader == OneShot(true, c.reader.stream) && Unfinished(c.reader.stream)
    ensures Needed(c.reader) == Wanted(c.reader.stream) > 0 && c.sent == [] && c.tx == 0 && Hungry(c.reader)
  {
    hide OneShot, Unfinished;
    StateIs(c.reader.stream);
  }

  lemma NoneCompletes(s: seq<Byte>, recvs: seq<Recv>)
    ensures !Completed(s, recvs) ==> forall n: nat :: !Completes(s, recvs, n)
  {
  }

  lemma NoneIsNone(s: seq<Byte>, recvs: seq<Recv>)
    requires forall n: nat :: !Completes(s, recvs, n)
    ensures !Completed(s, recvs)
  {
  }

  lemma OneIsSome(s: seq<Byte>, recvs: seq<Recv>)
    requires Completes(s, recvs, 1)
    ensures Completed(s, recvs)
  {
  }

  lemma FirstHeard(s: seq<Byte>, recvs: seq<Recv>)
    requires recvs != [] && Unfinished(s) && Wanted(s) > 0 && recvs[0].Data? && recvs[0].bytes != []
    ensures Heard(s, recvs, 1) == Next(s, recvs[0])
  {
    FirstFlows(s, recvs);
  }

  lemma StateAfter(r: Reader, chunk: seq<Byte>)
    requires r == OneShot(true, r.stream)
    ensures Feed(r, chunk).state == OneShot(true, r.stream + chunk).state
  {
    hide OneShot, Feed;
    FeedTwice(true, r.stream, chunk);
  }

  /** The reply depends on the peer and the message alone. */
  lemma SamePeer(service: Service, c: Connection, d: Connection, io: Io)
    requires d == c.(reader := d.reader)
    ensures forall r, e, kept :: Replied(service, d, io, r, e, kept) <==> Replied(service, c, io, r, e, kept)
  {
    hide Survives, Taken;
  }

  lemma LaterReply(service: Service, c: Connection, d: Connection, io: Io)
    requires d == c.(reader := d.reader)
    ensures forall rest, r, e, kept ::
              Replied(service, d, io.(recvs := rest), r, e, kept) <==> Replied(service, c, io, r, e, kept)
  {
    hide Taken, SendFails, PeerLeaves;
  }

  // ---- When a connection is given up ----

  ghost predicate Served(service: Service, c: Connection, io: Io, r: Reader)
  {
    match service(c.peer, r)
    case None => false
    case Some(reply) => io.toWrite && Survives(io, |reply|)
  }

  ghost predicate GivenUp(service: Service, c: Connection, io: Io)
  {
    match c.phase
    case Idle => false
    case Receiving =>
      var s := c.reader.stream;
      || (exists n: nat :: Completes(s, io.recvs, n) && !Served(service, c, io, OneShot(true, Heard(s, io.recvs, n))))
      || (!Completed(s, io.recvs) && Broken(s, io.recvs))
    case Transmitting => !Survives(io, |c.response| - c.tx)
    case Closing => PeerLeaves(io.drains)
  }

  /** Handling an event gives a connection up exactly then. */
  lemma GivenUpIff(service: Service, c: Connection, io: Io)
    requires ConnectionOk(service, c)
    ensures !Handle(service, c, io).1 <==> GivenUp(service, c, io)
  {
    hide OneShot, Needed, Hungry, Survives, Completes, Heard, Broken, PeerLeaves, WriteBytes, ReceiveBytes, Taken;
    match c.phase
    case Idle =>
    case Receiving =>
      ReceivingIs(service, c, io);
      CompletesBounds(c.reader.stream, io.recvs);
    case Transmitting => SendingIs(service, c, io);
    case Closing => DrainIff(io.drains);
  }

  // ---- When it is answered ----

  function Assembled(s: seq<Byte>, pieces: seq<seq<Byte>>): seq<Byte>
    decreases |pieces|
  {
    if pieces == [] then s else Assembled(s + pieces[0], pieces[1..])
  }

  /** Each piece is something, and no more than recv was asked for. */
  predicate Fit(s: seq<Byte>, pieces: seq<seq<Byte>>)
    decreases |pieces|
  {
    pieces == [] || (pieces[0] != [] && |pieces[0]| <= Wanted(s) && Fit(s + pieces[0], pieces[1..]))
  }

  ghost predicate Bring(recvs: seq<Recv>, pieces: seq<seq<Byte>>)
  {
    |pieces| <= |recvs| && forall j :: 0 <= j < |pieces| ==> recvs[j] == Data(pieces[j])
  }

  lemma {:induction false} AssembledGrows(s: seq<Byte>, pieces: seq<seq<Byte>>) returns (rest: seq<Byte>)
    requires forall j :: 0 <= j < |pieces| ==> pieces[j] != []
    ensures Assembled(s, pieces) == s + rest && (rest == [] <==> pieces == [])
    decreases |pieces|
  {
    rest := [];
    if pieces != [] {
      var more := AssembledGrows(s + pieces[0], pieces[1..]);
      rest := pieces[0] + more;
    }
  }

  /** What an accepted message begins with is unfinished until the message ends. */
  lemma BeginningIsUnfinished(s: seq<Byte>, rest: seq<Byte>)
    requires Accepted(s + rest) && rest != []
    ensures Unfinished(s) && Wanted(s) > 0 && !Accepted(s)
  {
    var m := s + rest;
    if |s| >= 20 {
      assert m[4..8] == s[4..8];
      assert m[0] == s[0] && m[2] == s[2] && m[3] == s[3];
    }
    hide BodyCuts;
  }

  lemma {:induction false} FitPieces(s: seq<Byte>, pieces: seq<seq<Byte>>)
    requires Fit(s, pieces)
    ensures forall j :: 0 <= j < |pieces| ==> pieces[j] != []
    decreases |pieces|
  {
    hide Wanted;
    if pieces != [] {
      FitPieces(s + pieces[0], pieces[1..]);
      forall j | 0 <= j < |pieces| ensures pieces[j] != [] {
        assert j > 0 ==> pieces[j] == pieces[1..][j - 1];
      }
    }
  }

  lemma {:induction false} PiecesComplete(s: seq<Byte>, pieces: seq<seq<Byte>>, recvs: seq<Recv>)
    requires pieces != [] && Fit(s, pieces) && Bring(recvs, pieces) && Accepted(Assembled(s, pieces))
    ensures Completes(s, recvs, |pieces|) && Heard(s, recvs, |pieces|) == Assembled(s, pieces)
    decreases |pieces|
  {
    FitPieces(s, pieces);
    var rest := AssembledGrows(s, pieces);
    BeginningIsUnfinished(s, rest);
    hide Wanted, Unfinished, Accepted, Completes, Heard, Flows;
    assert recvs[0] == Data(pieces[0]);
    var t := s + pieces[0];
    assert pieces[0][..|pieces[0]|] == pieces[0];
    assert Next(s, recvs[0]) == t;
    FirstHeard(s, recvs);
    if |pieces| == 1 {
      OnePiece(s, pieces, recvs);
    } else {
      var more := AssembledGrows(t, pieces[1..]);
      BeginningIsUnfinished(t, more);
      PiecesComplete(t, pieces[1..], recvs[1..]);
      CompletesRest(s, recvs, |pieces|);
      FlowsRest(s, recvs, |pieces|);
    }
  }

  lemma OnePiece(s: seq<Byte>, pieces: seq<seq<Byte>>, recvs: seq<Recv>)
    requires |pieces| == 1 && Accepted(Assembled(s, pieces)) && recvs != [] && recvs[0] == Data(pieces[0])
    requires Unfinished(s) && Wanted(s) > 0 && pieces[0] != [] && Next(s, recvs[0]) == s + pieces[0]
    ensures Completes(s, recvs, 1) && Heard(s, recvs, 1) == Assembled(s, pieces)
  {
    assert pieces[1..] == [];
    assert Assembled(s, pieces) == s + pieces[0];
    FirstFlows(s, recvs);
    hide Wanted, Unfinished, Accepted, Heard, Flows, Next;
  }

  /** When recv brings, in any pieces, the rest of a message that is accepted and has a reply, the poller takes the
      connection for writing and back for reading, and send takes all of the reply, in any pieces, then the whole
      reply was sent and the connection is closing; it is kept until the other end leaves. */
  lemma WholeReplySent(service: Service, c: Connection, pieces: seq<seq<Byte>>, reply: Reply, io: Io)
    requires ConnectionOk(service, c) && c.phase == Receiving
    requires pieces != [] && Fit(c.reader.stream, pieces) && Bring(io.recvs, pieces)
    requires var r := OneShot(true, Assembled(c.reader.stream, pieces));
             r.state == BodyValidated && service(c.peer, r) == Some(reply)
    requires io.toWrite && io.toRead && Taken(io.sends) >= |reply|
    ensures var (d, kept) := Handle(service, c, io);
            && d.phase == Closing && d.sent == reply == d.response && (kept <==> !PeerLeaves(io.drains))
  {
    hide OneShot, Needed, Hungry, Completes, Heard, PeerLeaves, ReceiveBytes, Taken, Assembled, Fit, Accepted;
    StateIs(Assembled(c.reader.stream, pieces));
    PiecesComplete(c.reader.stream, pieces, io.recvs);
    ReceivingIs(service, c, io);
  }
}

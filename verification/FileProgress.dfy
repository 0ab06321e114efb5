/** When the file transfer can still be completed, and how often completion is announced. */
module FileProgress {
  import opened Bits
  import opened FileBlocks
  import opened Datagrams
  import opened FileTransfer

  lemma {:induction false} RunAppend(w: World, a: seq<Event>, b: seq<Event>)
    requires IsRun(w, a) && IsRun(Run(w, a), b)
    ensures IsRun(w, a + b) && Run(w, a + b) == Run(Run(w, a), b)
    decreases |a|
  {
    if a == [] {
      assert a + b == b;
    } else {
      assert (a + b)[1..] == a[1..] + b;
      RunAppend(Next(w, a[0]), a[1..], b);
    }
  }

  lemma RunOne(w: World, e: Event)
    requires Inv(w) && Enabled(w, e)
    ensures IsRun(w, [e]) && Run(w, [e]) == Next(w, e) && Inv(Next(w, e)) && Next(w, e).file == w.file
  {
    NextInv(w, e);
    assert [e][1..] == [];
  }

  lemma Then(w: World, a: seq<Event>, e: Event) returns (b: seq<Event>)
    requires IsRun(w, a) && Inv(Run(w, a)) && Enabled(Run(w, a), e)
    ensures IsRun(w, b) && Run(w, b) == Next(Run(w, a), e) && Inv(Run(w, b)) && Run(w, b).file == Run(w, a).file
  {
    RunOne(Run(w, a), e);
    RunAppend(w, a, [e]);
    b := a + [e];
  }

  // ---- The handshake, from wherever it stands ----

  ghost predicate Begun(w: World, v: World)
  {
    && Inv(v) && v.file == w.file && v.sender.pos == 0 && v.sender.thread == Reading
    && v.receiver.completions == w.receiver.completions
  }

  /** The acknowledged description starts the sending thread. */
  lemma FromApk(w: World, d: seq<Byte>) returns (run: seq<Event>)
    requires Inv(w) && w.sender.pos == -1 && d in w.toSender && Decode(d) == FileDescApk
    ensures IsRun(w, run) && Begun(w, Run(w, run))
  {
    assert IsRun(w, []) && Run(w, []) == w;
    assert ToSenderOk(w, Decode(d));
    hide Decode, Encodes, Split, Join, Run, IsRun;
    run := Then(w, [], AtSender(d, []));
  }

  lemma FromDesc(w: World, d: seq<Byte>) returns (run: seq<Event>)
    requires Inv(w) && w.sender.pos == -1 && d in w.toReceiver && Decode(d).FileDesc?
    ensures IsRun(w, run) && Begun(w, Run(w, run))
  {
    var apk := Encode(FileDescApk);
    EncodeOk(FileDescApk);
    DecodeEncodes(apk, FileDescApk);
    assert IsRun(w, []) && Run(w, []) == w;
    hide Decode, Encodes, Encode, Split, Join, Run, IsRun, Inv;
    var first := Then(w, [], AtReceiver(d, apk));
    var rest := FromApk(Run(w, first), apk);
    RunAppend(w, first, rest);
    run := first + rest;
  }

  lemma FromName(w: World, d: seq<Byte>) returns (run: seq<Event>)
    requires Inv(w) && w.file != [] && w.sender.pos == -1 && d in w.toSender && Decode(d) == FileName(w.name)
    ensures IsRun(w, run) && Begun(w, Run(w, run))
  {
    var n := |Blocks(w)|;
    var desc := Encode(FileDesc(n));
    EncodeOk(FileDesc(n));
    DecodeEncodes(desc, FileDesc(n));
    assert IsRun(w, []) && Run(w, []) == w && n > 0;
    assert SenderReceive(w.sender, w.disk, FileName(w.name)).1 == Send(FileDesc(n));
    hide Decode, Encodes, Encode, Split, Join, Run, IsRun, Inv;
    var first := Then(w, [], AtSender(d, desc));
    var rest := FromDesc(Run(w, first), desc);
    RunAppend(w, first, rest);
    run := first + rest;
  }

  lemma FromNothing(w: World) returns (run: seq<Event>)
    requires Inv(w) && w.file != [] && w.sender.pos == -1 && !w.receiver.asked
    ensures IsRun(w, run) && Begun(w, Run(w, run))
  {
    var ask := Encode(FileName(w.name));
    EncodeOk(FileName(w.name));
    DecodeEncodes(ask, FileName(w.name));
    assert IsRun(w, []) && Run(w, []) == w;
    hide Decode, Encodes, Encode, Split, Join, Run, IsRun, Inv;
    var first := Then(w, [], Request(ask));
    var rest := FromName(Run(w, first), ask);
    RunAppend(w, first, rest);
    run := first + rest;
  }

  // ---- Block after block ----

  ghost predicate SectorIsAt(w: World, d: seq<Byte>, p: nat)
  {
    && 0 <= p < |Blocks(w)| && p < 0x8000_0000 && d in w.toReceiver
    && Decode(d) == Sector(|Blocks(w)[p].data|, p, Blocks(w)[p].data)
  }

  lemma BlockDatagram(file: seq<Byte>, p: nat) returns (d: seq<Byte>)
    requires p < |Split(file, 0)| < 0x8000_0000
    ensures var b := Split(file, 0)[p];
            var m := Sector(|b.data|, b.index, b.data);
            b.index == p && Encodes(d, m) && Decode(d) == m
  {
    SplitShape(file, 0, p);
    var b := Split(file, 0)[p];
    var m := Sector(|b.data|, b.index, b.data);
    hide Encode, Encodes, Decode, Split;
    d := Encode(m);
    EncodeOk(m);
    DecodeEncodes(d, m);
  }

  /** The sending thread puts the current block on the network. */
  lemma SendCurrent(w: World) returns (run: seq<Event>, d: seq<Byte>)
    requires Inv(w) && w.sender.thread == Reading && w.sender.pos < |Blocks(w)|
    ensures IsRun(w, run) && Inv(Run(w, run)) && Run(w, run).file == w.file
    ensures Run(w, run).sender == w.sender && Run(w, run).receiver == w.receiver
    ensures SectorIsAt(Run(w, run), d, w.sender.pos)
  {
    d := BlockDatagram(w.file, w.sender.pos);
    assert IsRun(w, []) && Run(w, []) == w && w.sender.blocks == Blocks(w);
    hide Decode, Encodes, Split, Run, IsRun, Inv;
    run := Then(w, [], Read);
    run := Then(w, run, Transmit(d));
  }

  /** The block is written, or found written, and its acknowledgement moves the sender on. */
  lemma AcknowledgeCurrent(w: World, d: seq<Byte>) returns (run: seq<Event>)
    requires Inv(w) && w.sender.pos >= 0 && SectorIsAt(w, d, w.sender.pos)
    ensures IsRun(w, run) && Inv(Run(w, run)) && Run(w, run).file == w.file
    ensures Run(w, run).sender == w.sender.(pos := w.sender.pos + 1)
  {
    var apk := Encode(SectorApk(w.sender.pos));
    EncodeOk(SectorApk(w.sender.pos));
    DecodeEncodes(apk, SectorApk(w.sender.pos));
    assert IsRun(w, []) && Run(w, []) == w;
    hide Decode, Encodes, Encode, Split, Join, Run, IsRun;
    run := Then(w, [], AtReceiver(d, apk));
    run := Then(w, run, AtSender(apk, []));
  }

  /** One round: the current block is sent, written and acknowledged. */
  lemma Round(w: World) returns (run: seq<Event>)
    requires Inv(w) && w.sender.thread == Reading && w.sender.pos < |Blocks(w)|
    ensures IsRun(w, run) && Inv(Run(w, run)) && Run(w, run).file == w.file
    ensures Run(w, run).sender == w.sender.(pos := w.sender.pos + 1)
  {
    var first, d := SendCurrent(w);
    var second := AcknowledgeCurrent(Run(w, first), d);
    RunAppend(w, first, second);
    run := first + second;
  }

  lemma Rounds(w: World) returns (run: seq<Event>)
    requires Inv(w) && w.sender.thread == Reading
    ensures IsRun(w, run) && Inv(Run(w, run)) && Run(w, run).file == w.file && Run(w, run).sender.thread == Stopped
    decreases |Blocks(w)| - w.sender.pos
  {
    if w.sender.pos < |Blocks(w)| {
      var first := Round(w);
      var rest := Rounds(Run(w, first));
      RunAppend(w, first, rest);
      run := first + rest;
    } else {
      run := Then(w, [], Read);
    }
  }

  /** Gets a started sending thread to the point where it looks at the position. */
  lemma ToReading(w: World) returns (run: seq<Event>)
    requires Inv(w) && w.sender.pos >= 0 && w.sender.thread != Stopped
    ensures IsRun(w, run) && Inv(Run(w, run)) && Run(w, run).file == w.file && Run(w, run).sender.thread == Reading
  {
    if w.sender.thread.Sending? {
      var d := BlockDatagram(w.file, w.sender.thread.position);
      assert IsRun(w, []) && Run(w, []) == w && w.sender.blocks == Blocks(w);
      hide Decode, Encodes, Split, Run, IsRun;
      run := Then(w, [], Transmit(d));
    } else {
      run := [];
    }
  }

  lemma StoppedHoldsFile(w: World)
    requires Inv(w) && w.sender.thread == Stopped
    ensures w.receiver.file == w.file
  {
    SplitJoin(w.file, 0);
    assert Blocks(w)[..|Blocks(w)|] == Blocks(w);
  }

  // ---- Exactly when the transfer can still be completed ----

  ghost predicate Finishes(w: World, run: seq<Event>)
  {
    IsRun(w, run) && Run(w, run).sender.thread == Stopped && Run(w, run).receiver.file == w.file
  }

  /** A request, a description or its acknowledgement is on its way. */
  ghost predicate ShakingHands(w: World)
  {
    || (exists d :: d in w.toSender && (Decode(d).FileName? || Decode(d) == FileDescApk))
    || (exists d :: d in w.toReceiver && Decode(d).FileDesc?)
  }

  /** Nothing of the handshake is sent twice, so losing any of it stops everything; once the sending
      thread runs, losses do not matter. */
  ghost predicate Alive(w: World)
  {
    w.file != [] && (w.sender.pos >= 0 || !w.receiver.asked || ShakingHands(w))
  }

  lemma FinishStarted(w: World) returns (run: seq<Event>)
    requires Inv(w) && w.sender.pos >= 0
    ensures Finishes(w, run)
  {
    if w.sender.thread == Stopped {
      run := [];
      StoppedHoldsFile(w);
    } else {
      var first := ToReading(w);
      var rest := Rounds(Run(w, first));
      RunAppend(w, first, rest);
      run := first + rest;
      hide Inv;
      StoppedHoldsFile(Run(w, run));
    }
  }

  lemma AskedByName(w: World)
    requires Inv(w)
    ensures forall d :: d in w.toSender && Decode(d).FileName? ==> Decode(d) == FileName(w.name)
  {
    hide Decode, EndsOk;
    assert forall d :: d in w.toSender ==> ToSenderOk(w, Decode(d));
  }

  lemma Begin(w: World) returns (run: seq<Event>)
    requires Inv(w) && Alive(w) && w.sender.pos == -1
    ensures IsRun(w, run) && Begun(w, Run(w, run))
  {
    AskedByName(w);
    hide Inv, Decode, Run, IsRun, Begun;
    if d :| d in w.toSender && Decode(d) == FileDescApk {
      run := FromApk(w, d);
    } else if d :| d in w.toReceiver && Decode(d).FileDesc? {
      run := FromDesc(w, d);
    } else if d :| d in w.toSender && Decode(d).FileName? {
      run := FromName(w, d);
    } else {
      run := FromNothing(w);
    }
  }

  lemma AliveFinishes(w: World) returns (run: seq<Event>)
    requires Inv(w) && Alive(w)
    ensures Finishes(w, run)
  {
    if w.sender.pos >= 0 {
      run := FinishStarted(w);
    } else {
      assert w.sender.pos == -1;
      var first := Begin(w);
      hide Inv, Run, IsRun, Alive;
      var rest := FinishStarted(Run(w, first));
      RunAppend(w, first, rest);
      run := first + rest;
    }
  }

  /** Before the sending thread runs, only the handshake is on its way. */
  lemma OnlyHandshake(w: World)
    requires Inv(w) && w.sender.pos == -1 && !ShakingHands(w)
    ensures w.toSender == {} && w.toReceiver == {}
  {
    hide Decode, Split, Join;
    assert forall d :: d in w.toSender ==> ToSenderOk(w, Decode(d));
    assert forall d :: d in w.toReceiver ==> ToReceiverOk(w, Decode(d));
  }

  lemma NothingEnabled(w: World, e: Event)
    requires Inv(w) && w.file != [] && !Alive(w)
    ensures !Enabled(w, e)
  {
    OnlyHandshake(w);
    hide Decode, Encodes, Split, Join;
  }

  /** An empty file has no blocks, so its transfer never starts. */
  lemma EmptyNeverStarts(w: World)
    requires Inv(w) && w.file == []
    ensures w.sender.thread == NotStarted && w.sender.pos == -1
  {
  }

  lemma StuckStays(w: World, run: seq<Event>)
    requires Inv(w) && !Alive(w) && IsRun(w, run)
    ensures Run(w, run).sender.thread == NotStarted
  {
    if w.file == [] {
      RunInv(w, run);
      hide Inv, Run;
      EmptyNeverStarts(Run(w, run));
    } else {
      if run != [] {
        NothingEnabled(w, run[0]);
      }
    }
  }

  /** After any run, however datagrams were lost, repeated and reordered: it can be continued to one in
      which the sender has stopped and the receiver holds the file if and only if the file is not empty
      and the sending thread has started, or the file was not asked for yet, or a datagram of the
      handshake is still on its way. */
  lemma FinishesIffAlive(disk: Disk, name: Name, events: seq<Event>)
    requires |Split(disk(NameIn(name)), 0)| < 0x8000_0000 && IsRun(Start(disk, name), events)
    ensures var w := Run(Start(disk, name), events); (exists more :: Finishes(w, more)) <==> Alive(w)
  {
    RunInv(Start(disk, name), events);
    var w := Run(Start(disk, name), events);
    hide Inv, Run, IsRun, Alive, Start;
    if Alive(w) {
      var more := AliveFinishes(w);
    }
    forall more | Finishes(w, more) ensures Alive(w) {
      if !Alive(w) {
        StuckStays(w, more);
      }
    }
  }

  /** One lost request is enough: nothing can happen any more. */
  lemma LostRequestStops(disk: Disk, name: Name) returns (events: seq<Event>)
    requires |Split(disk(NameIn(name)), 0)| < 0x8000_0000
    ensures IsRun(Start(disk, name), events) && !Alive(Run(Start(disk, name), events))
  {
    var w := Start(disk, name);
    var ask := Encode(FileName(w.name));
    EncodeOk(FileName(w.name));
    assert Inv(w) by {
      assert Blocks(w)[..0] == [];
    }
    assert IsRun(w, []) && Run(w, []) == w;
    hide Decode, Encodes, Encode, Split, Join, Run, IsRun, Inv;
    events := Then(w, [], Request(ask));
    events := Then(w, events, LoseToSender(ask));
    assert Run(w, events).toSender == {};
  }

  // ---- How often completion is announced ----

  ghost predicate DeliversLast(w: World, e: Event)
  {
    e.AtReceiver? && Decode(e.d).Sector? && Decode(e.d).index == |Blocks(w)| - 1
  }

  /** Deliveries of the last block. */
  ghost function LastDeliveries(w: World, events: seq<Event>): nat
    decreases |events|
  {
    if events == [] then 0
    else LastDeliveries(Next(w, events[0]), events[1..]) + if DeliversLast(w, events[0]) then 1 else 0
  }

  /** A step announces completion exactly when it delivers the last block, new or again. */
  lemma AnnouncesIffLast(w: World, e: Event)
    requires Inv(w) && Enabled(w, e)
    ensures Next(w, e).receiver.completions == w.receiver.completions + if DeliversLast(w, e) then 1 else 0
  {
    hide Decode, Encodes, Split, Join;
    if e.AtReceiver? {
      assert ToReceiverOk(w, Decode(e.d));
    }
  }

  lemma {:induction false} CompletionsAre(w: World, events: seq<Event>)
    requires Inv(w) && IsRun(w, events)
    ensures Run(w, events).receiver.completions == w.receiver.completions + LastDeliveries(w, events)
    decreases |events|
  {
    hide Inv, Enabled, Next, DeliversLast;
    if events != [] {
      AnnouncesIffLast(w, events[0]);
      NextInv(w, events[0]);
      CompletionsAre(Next(w, events[0]), events[1..]);
    }
  }

  /** In every run completion is announced as often as the last block is delivered. */
  lemma CompletionsAreLastDeliveries(disk: Disk, name: Name, events: seq<Event>)
    requires |Split(disk(NameIn(name)), 0)| < 0x8000_0000 && IsRun(Start(disk, name), events)
    ensures Run(Start(disk, name), events).receiver.completions == LastDeliveries(Start(disk, name), events)
  {
    assert Inv(Start(disk, name)) by {
      assert Blocks(Start(disk, name))[..0] == [];
    }
    hide Inv, Run, IsRun, LastDeliveries;
    CompletionsAre(Start(disk, name), events);
  }

  /** Which can be more than once, for every file that is not empty. */
  lemma CompletionCanRepeat(disk: Disk, name: Name) returns (events: seq<Event>)
    requires disk(NameIn(name)) != [] && |Split(disk(NameIn(name)), 0)| < 0x8000_0000
    ensures IsRun(Start(disk, name), events) && Run(Start(disk, name), events).receiver.completions >= 2
  {
    var w := Start(disk, name);
    assert Inv(w) by {
      assert Blocks(w)[..0] == [];
    }
    var first := FromNothing(w);
    var v := Run(w, first);
    assert v.sender.pos < |Blocks(v)|;
    hide Inv, Run, IsRun, Split;
    var second := RoundsToLast(v);
    RunAppend(w, first, second);
    var third := TwoDeliveries(Run(v, second));
    RunAppend(w, first + second, third);
    events := first + second + third;
  }

  lemma RoundsToLast(w: World) returns (run: seq<Event>)
    requires Inv(w) && w.sender.thread == Reading && w.sender.pos < |Blocks(w)|
    ensures IsRun(w, run) && Inv(Run(w, run)) && Run(w, run).file == w.file
    ensures Run(w, run).sender == w.sender.(pos := |Blocks(w)| - 1)
    decreases |Blocks(w)| - w.sender.pos
  {
    if w.sender.pos == |Blocks(w)| - 1 {
      run := [];
    } else {
      hide Inv;
      var first := Round(w);
      var rest := RoundsToLast(Run(w, first));
      RunAppend(w, first, rest);
      run := first + rest;
    }
  }

  lemma TwoDeliveries(w: World) returns (run: seq<Event>)
    requires Inv(w) && w.sender.thread == Reading && w.sender.pos == |Blocks(w)| - 1
    ensures IsRun(w, run) && Run(w, run).receiver.completions == w.receiver.completions + 2
  {
    var first, d := SendCurrent(w);
    assert LastIsAt(Run(w, first), d);
    var apk := DeliverLast(Run(w, first), d);
    hide Run, IsRun, Inv, LastIsAt, Next, Enabled;
    run := Then(w, first, AtReceiver(d, apk));
    apk := DeliverLast(Run(w, run), d);
    run := Then(w, run, AtReceiver(d, apk));
  }

  /** The last block is on its way, and known to be the last. */
  ghost predicate LastIsAt(w: World, d: seq<Byte>)
  {
    && |Blocks(w)| > 0 && SectorIsAt(w, d, |Blocks(w)| - 1) && w.receiver.blockCount == |Blocks(w)|
  }

  /** It can be delivered, and again. */
  lemma DeliverLast(w: World, d: seq<Byte>) returns (apk: seq<Byte>)
    requires LastIsAt(w, d)
    ensures var e := AtReceiver(d, apk);
            && Enabled(w, e) && LastIsAt(Next(w, e), d)
            && Next(w, e).receiver.completions == w.receiver.completions + 1
  {
    apk := Encode(SectorApk(|Blocks(w)| - 1));
    EncodeOk(SectorApk(|Blocks(w)| - 1));
    hide Decode, Encodes, Encode, Split;
  }
}

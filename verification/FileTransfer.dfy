/** The peer-to-peer file transfer of client/clientmain.cpp: one sender, one receiver, one session,
    over a network that may lose, duplicate and reorder datagrams. */
module FileTransfer {
  import opened Bits
  import opened FileBlocks
  import opened Datagrams

  // ---- The two ends ----

  /** What is in the file of each name; nothing if there is none. */
  type Disk = seq<Byte> -> seq<Byte>

  datatype Thread = NotStarted | Reading | Sending(position: int) | Stopped

  /** `pos` is shared by the sender's receive thread and its sending thread. */
  datatype Sender = Sender(loaded: bool, blocks: seq<FileBlock>, pos: int, thread: Thread)

  /** `asked` once the file has been requested, which happens once. */
  datatype Receiver = Receiver(asked: bool, blockCount: int, writePos: int, file: seq<Byte>, completions: nat)

  datatype Reply = NoReply | Send(message: Message)

  /** The sender's branches of the receive loop; the first name asked for is the file it shares. */
  function SenderReceive(s: Sender, disk: Disk, m: Message): (Sender, Reply)
  {
    match m
    case FileName(name) =>
      var t := if s.loaded then s else s.(loaded := true, blocks := Split(disk(NameIn(name)), 0));
      (t, if |t.blocks| > 0 then Send(FileDesc(|t.blocks|)) else NoReply)
    case FileDescApk =>
      if s.pos == -1 then
        (s.(pos := 0, thread := if |s.blocks| > 0 then Reading else s.thread), NoReply)
      else (s, NoReply)
    case SectorApk(index) =>
      (if s.pos == index then s.(pos := s.pos + 1) else s, NoReply)
    case _ => (s, NoReply)
  }

  /** The receiver's branches: a block is written only in turn, but every block is acknowledged. */
  function ReceiverReceive(r: Receiver, m: Message): (Receiver, Reply)
  {
    match m
    case FileDesc(count) => (r.(blockCount := count), Send(FileDescApk))
    case Sector(len, index, data) =>
      var w := if r.writePos == index then r.(writePos := r.writePos + 1, file := r.file + data) else r;
      (if index == w.blockCount - 1 then w.(completions := w.completions + 1) else w, Send(SectorApk(index)))
    case _ => (r, NoReply)
  }

  /** The sending thread looks at the shared position ... */
  function ThreadRead(s: Sender): Sender
  {
    if s.thread != Reading then s
    else if s.pos < |s.blocks| then s.(thread := Sending(s.pos)) else s.(thread := Stopped)
  }

  /** ... and later sends the block it saw there, however far the position has moved meanwhile. */
  function ThreadSend(s: Sender): (Sender, Reply)
  {
    if s.thread.Sending? && 0 <= s.thread.position < |s.blocks| then
      var b := s.blocks[s.thread.position];
      (s.(thread := Reading), Send(Sector(|b.data|, b.index, b.data)))
    else (s, NoReply)
  }

  // ---- Runs ----

  /** The datagrams on their way: each may arrive late, any number of times, or be lost. */
  datatype World = World(disk: Disk, name: Name, file: seq<Byte>, sender: Sender, receiver: Receiver,
                         toSender: set<seq<Byte>>, toReceiver: set<seq<Byte>>)

  /** `d` of a delivery is what arrives; `out` is the datagram used for the answer, if there is one. */
  datatype Event =
    | Request(out: seq<Byte>)
    | AtSender(d: seq<Byte>, out: seq<Byte>)
    | AtReceiver(d: seq<Byte>, out: seq<Byte>)
    | Read
    | Transmit(out: seq<Byte>)
    | LoseToSender(d: seq<Byte>)
    | LoseToReceiver(d: seq<Byte>)

  /** The receiver will ask for the file of this name. */
  function Start(disk: Disk, name: Name): World
  {
    World(disk, name, disk(NameIn(name)), Sender(false, [], -1, NotStarted), Receiver(false, 0, 0, [], 0), {}, {})
  }

  ghost predicate Carries(out: seq<Byte>, reply: Reply)
  {
    reply.Send? ==> Encodes(out, reply.message)
  }

  ghost predicate Enabled(w: World, e: Event)
  {
    match e
    case Request(out) => !w.receiver.asked && Encodes(out, FileName(w.name))
    case AtSender(d, out) => d in w.toSender && Carries(out, SenderReceive(w.sender, w.disk, Decode(d)).1)
    case AtReceiver(d, out) => d in w.toReceiver && Carries(out, ReceiverReceive(w.receiver, Decode(d)).1)
    case Read => w.sender.thread == Reading
    case Transmit(out) => w.sender.thread.Sending? && Carries(out, ThreadSend(w.sender).1)
    case LoseToSender(d) => d in w.toSender
    case LoseToReceiver(d) => d in w.toReceiver
  }

  function Posted(net: set<seq<Byte>>, out: seq<Byte>, reply: Reply): set<seq<Byte>>
  {
    if reply.Send? then net + {out} else net
  }

  function Next(w: World, e: Event): World
  {
    match e
    case Request(out) => w.(receiver := w.receiver.(asked := true), toSender := w.toSender + {out})
    case AtSender(d, out) =>
      var (s, reply) := SenderReceive(w.sender, w.disk, Decode(d));
      w.(sender := s, toReceiver := Posted(w.toReceiver, out, reply))
    case AtReceiver(d, out) =>
      var (r, reply) := ReceiverReceive(w.receiver, Decode(d));
      w.(receiver := r, toSender := Posted(w.toSender, out, reply))
    case Read => w.(sender := ThreadRead(w.sender))
    case Transmit(out) =>
      var (s, reply) := ThreadSend(w.sender);
      w.(sender := s, toReceiver := Posted(w.toReceiver, out, reply))
    case LoseToSender(d) => w.(toSender := w.toSender - {d})
    case LoseToReceiver(d) => w.(toReceiver := w.toReceiver - {d})
  }

  function Run(w: World, events: seq<Event>): World
    decreases |events|
  {
    if events == [] then w else Run(Next(w, events[0]), events[1..])
  }

  ghost predicate IsRun(w: World, events: seq<Event>)
    decreases |events|
  {
    events != [] ==> Enabled(w, events[0]) && IsRun(Next(w, events[0]), events[1..])
  }

  // ---- What every reachable world satisfies ----

  function Blocks(w: World): seq<FileBlock>
  {
    Split(w.file, 0)
  }

  /** What may be on its way to the sender: acknowledgements name written blocks only. */
  ghost predicate ToSenderOk(w: World, m: Message)
  {
    match m
    case FileName(name) => name == w.name
    case FileDescApk => w.sender.loaded && w.receiver.blockCount == |Blocks(w)| > 0
    case SectorApk(index) => 0 <= index < w.receiver.writePos
    case _ => false
  }

  /** What may be on its way to the receiver: true blocks, none beyond the sender's position. */
  ghost predicate ToReceiverOk(w: World, m: Message)
  {
    match m
    case FileDesc(count) => w.sender.loaded && count == |Blocks(w)| > 0
    case Sector(len, index, data) =>
      && 0 <= index < |Blocks(w)| && index <= w.sender.pos
      && len == |data| && data == Blocks(w)[index].data
    case _ => false
  }

  ghost predicate EndsOk(w: World)
  {
    var s, r, n := w.sender, w.receiver, |Blocks(w)|;
    && (if s.loaded then s.blocks == Blocks(w) else s.blocks == [])
    && -1 <= s.pos <= r.writePos <= s.pos + 1 && 0 <= r.writePos <= n
    && r.file == Join(Blocks(w)[..r.writePos])
    && (s.pos >= 0 ==> s.loaded && r.blockCount == n > 0)
    && (s.thread != NotStarted <==> s.pos >= 0)
    && (s.thread.Sending? ==> 0 <= s.thread.position <= s.pos && s.thread.position < n)
    && (s.thread == Stopped ==> s.pos == n)
    && (r.completions > 0 ==> r.writePos == n)
    && n < 0x8000_0000 && w.file == w.disk(NameIn(w.name))
  }

  ghost predicate Inv(w: World)
  {
    && EndsOk(w)
    && (forall d :: d in w.toSender ==> ToSenderOk(w, Decode(d)))
    && (forall d :: d in w.toReceiver ==> ToReceiverOk(w, Decode(d)))
  }

  lemma JoinNext(blocks: seq<FileBlock>, i: nat)
    requires i < |blocks|
    ensures Join(blocks[..i + 1]) == Join(blocks[..i]) + blocks[i].data
  {
    assert blocks[..i + 1][..i] == blocks[..i];
  }

  lemma AtSenderInv(w: World, d: seq<Byte>, out: seq<Byte>)
    requires Inv(w) && Enabled(w, AtSender(d, out))
    ensures Inv(Next(w, AtSender(d, out)))
  {
    var m := Decode(d);
    assert ToSenderOk(w, m);
    var (s, reply) := SenderReceive(w.sender, w.disk, m);
    if reply.Send? {
      DecodeEncodes(out, reply.message);
    }
    hide Decode, Encodes, Split, Join;
    var v := Next(w, AtSender(d, out));
    forall e | e in v.toSender ensures ToSenderOk(v, Decode(e)) {
      assert ToSenderOk(w, Decode(e));
    }
    forall e | e in v.toReceiver ensures ToReceiverOk(v, Decode(e)) {
      if e in w.toReceiver {
        assert ToReceiverOk(w, Decode(e));
      }
    }
  }

  /** What a message does to the receiver, besides the reply. */
  lemma ReceiverEnds(w: World, m: Message)
    requires EndsOk(w) && ToReceiverOk(w, m)
    ensures var v := w.(receiver := ReceiverReceive(w.receiver, m).0);
            EndsOk(v) && v.receiver.writePos >= w.receiver.writePos
    ensures var (r, reply) := ReceiverReceive(w.receiver, m);
            reply.Send? && ToSenderOk(w.(receiver := r), reply.message)
  {
    if m.Sector? {
      JoinNext(Blocks(w), m.index);
    }
    hide Split, Join;
  }

  lemma AtReceiverInv(w: World, d: seq<Byte>, out: seq<Byte>)
    requires Inv(w) && Enabled(w, AtReceiver(d, out))
    ensures Inv(Next(w, AtReceiver(d, out)))
  {
    var m := Decode(d);
    assert ToReceiverOk(w, m);
    var (r, reply) := ReceiverReceive(w.receiver, m);
    if reply.Send? {
      DecodeEncodes(out, reply.message);
    }
    ReceiverEnds(w, m);
    hide Decode, Encodes, Split, Join, EndsOk;
    var v := Next(w, AtReceiver(d, out));
    forall e | e in v.toSender ensures ToSenderOk(v, Decode(e)) {
      if e in w.toSender {
        assert ToSenderOk(w, Decode(e));
      }
    }
    forall e | e in v.toReceiver ensures ToReceiverOk(v, Decode(e)) {
      assert ToReceiverOk(w, Decode(e));
    }
    SameEnds(w.(receiver := r), v);
  }

  lemma SameEnds(w: World, v: World)
    requires EndsOk(w) && v.sender == w.sender && v.receiver == w.receiver
    requires v.file == w.file && v.disk == w.disk && v.name == w.name
    ensures EndsOk(v)
  {
  }

  lemma RequestInv(w: World, out: seq<Byte>)
    requires Inv(w) && Enabled(w, Request(out))
    ensures Inv(Next(w, Request(out)))
  {
  }

  lemma ReadInv(w: World)
    requires Inv(w) && Enabled(w, Read)
    ensures Inv(Next(w, Read))
  {
  }

  lemma TransmitInv(w: World, out: seq<Byte>)
    requires Inv(w) && Enabled(w, Transmit(out))
    ensures Inv(Next(w, Transmit(out)))
  {
    SplitShape(w.file, 0, w.sender.thread.position);
    DecodeEncodes(out, ThreadSend(w.sender).1.message);
    TransmitEnds(w, out);
    hide Decode, Encodes, Split, Join;
    var v := Next(w, Transmit(out));
    forall d | d in v.toSender ensures ToSenderOk(v, Decode(d)) {
      assert ToSenderOk(w, Decode(d));
    }
    forall d | d in v.toReceiver ensures ToReceiverOk(v, Decode(d)) {
      if d in w.toReceiver {
        assert ToReceiverOk(w, Decode(d));
      }
    }
  }

  lemma TransmitEnds(w: World, out: seq<Byte>)
    requires EndsOk(w) && w.sender.thread.Sending?
    ensures EndsOk(Next(w, Transmit(out)))
  {
    hide Split, Join;
  }

  lemma LossInv(w: World, e: Event)
    requires Inv(w) && (e.LoseToSender? || e.LoseToReceiver?)
    ensures Inv(Next(w, e))
  {
    hide Decode, Split, Join;
    SameEnds(w, Next(w, e));
    var v := Next(w, e);
    assert forall d :: d in v.toSender ==> ToSenderOk(w, Decode(d));
    assert forall d :: d in v.toReceiver ==> ToReceiverOk(w, Decode(d));
  }

  lemma NextInv(w: World, e: Event)
    requires Inv(w) && Enabled(w, e)
    ensures Inv(Next(w, e)) && Next(w, e).file == w.file
  {
    match e
    case AtSender(d, out) => AtSenderInv(w, d, out);
    case AtReceiver(d, out) => AtReceiverInv(w, d, out);
    case Request(out) => RequestInv(w, out);
    case Read => ReadInv(w);
    case Transmit(out) => TransmitInv(w, out);
    case LoseToSender(d) => LossInv(w, e);
    case LoseToReceiver(d) => LossInv(w, e);
  }

  lemma {:induction false} RunInv(w: World, events: seq<Event>)
    requires Inv(w) && IsRun(w, events)
    ensures Inv(Run(w, events)) && Run(w, events).file == w.file
    decreases |events|
  {
    if events != [] {
      NextInv(w, events[0]);
      RunInv(Next(w, events[0]), events[1..]);
    }
  }

  lemma {:induction false} JoinPrefix(blocks: seq<FileBlock>, i: nat)
    requires i <= |blocks|
    ensures Join(blocks[..i]) <= Join(blocks)
    decreases |blocks| - i
  {
    if i == |blocks| {
      assert blocks[..i] == blocks;
    } else {
      JoinNext(blocks, i);
      JoinPrefix(blocks, i + 1);
    }
  }

  /** In every run: the receiver holds exactly the first `writePos` blocks, in order; it is never
      behind the sender's position nor more than one block ahead; only written blocks are ever
      acknowledged; and once the sending thread has stopped, or the receiver has announced
      completion, the receiver holds the whole file of the name it asked for. */
  lemma TransferIsSafe(disk: Disk, name: Name, events: seq<Event>)
    requires |Split(disk(NameIn(name)), 0)| < 0x8000_0000 && IsRun(Start(disk, name), events)
    ensures var w, file := Run(Start(disk, name), events), disk(NameIn(name));
            && -1 <= w.sender.pos <= w.receiver.writePos <= w.sender.pos + 1
            && 0 <= w.receiver.writePos <= |Split(file, 0)|
            && w.receiver.file == Join(Split(file, 0)[..w.receiver.writePos]) <= file
            && (forall d :: d in w.toSender && Decode(d).SectorApk? ==> 0 <= Decode(d).index < w.receiver.writePos)
            && (w.sender.thread == Stopped || w.receiver.completions > 0 ==> w.receiver.file == file)
  {
    RunInv(Start(disk, name), events);
    var w, file := Run(Start(disk, name), events), disk(NameIn(name));
    SplitJoin(file, 0);
    JoinPrefix(Split(file, 0), w.receiver.writePos);
    assert Split(file, 0)[..|Split(file, 0)|] == Split(file, 0);
    forall d | d in w.toSender && Decode(d).SectorApk? ensures 0 <= Decode(d).index < w.receiver.writePos {
      assert ToSenderOk(w, Decode(d));
    }
  }
}

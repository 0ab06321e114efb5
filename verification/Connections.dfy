/** One TCP connection of the server: what recv, send and the request handler do to it. */
module Connections {
  import opened Bits
  import opened Options
  import opened Incremental
  import opened Addresses
  import opened Handler

  datatype Phase = Idle | Receiving | Transmitting | Closing

  /** The listening socket's role and both ends of the connection. */
  datatype Peer = Peer(role: Role, local: Address, remote: Address)

  type Reply = s: seq<Byte> | |s| > 0 witness [0]

  /** The request handler, for an accepted message; no reply is a failure. */
  type Service = (Peer, Reader) -> Option<Reply>

  /** `sent` is what send has taken so far, `born` the number of sweeps before the connection was accepted. */
  datatype Connection = Connection(phase: Phase, sock: int, peer: Peer, reader: Reader, response: seq<Byte>,
                                   sent: seq<Byte>, tx: nat, table: int, born: nat)

  const NO_SOCKET: int := -1

  const BLANK: Connection :=
    Connection(Idle, NO_SOCKET, Peer(PP, ZERO_ADDRESS, ZERO_ADDRESS), Fresh(true), [], [], 0, -1, 0)

  /** Results of recv and send on a non-blocking socket. */
  datatype Recv = NothingYet | Broken | Data(bytes: seq<Byte>)

  datatype Sent = Blocked | Refused | Took(count: nat)

  /** What the operating system will answer while one event is handled; when a list runs out the call
      would block. */
  datatype Io = Io(recvs: seq<Recv>, sends: seq<Sent>, drains: seq<Recv>, toWrite: bool, toRead: bool)

  function Min(a: int, b: int): int
  {
    if a < b then a else b
  }

  // ---- The three loops; the flag says whether the connection is kept ----

  /** Waits for the other end to close. */
  function ConsumeRemoteClose(drains: seq<Recv>): bool
  {
    if drains == [] || drains[0].NothingYet? then true
    else if drains[0].Broken? || drains[0].bytes == [] then false
    else ConsumeRemoteClose(drains[1..])
  }

  function Rest(c: Connection): seq<Byte>
  {
    if c.tx <= |c.response| then c.response[c.tx..] else []
  }

  /** send took `k` more bytes of the response. */
  function Advance(c: Connection, k: nat): Connection
    requires k <= |Rest(c)|
  {
    c.(tx := c.tx + k, sent := c.sent + Rest(c)[..k])
  }

  function WriteBytes(c: Connection, io: Io): (Connection, bool)
    decreases |io.sends|
  {
    if io.sends == [] || io.sends[0].Blocked? then (c, true)
    else if io.sends[0].Refused? || io.sends[0].count == 0 then (c, false)
    else
      var d := Advance(c, Min(io.sends[0].count, |Rest(c)|));
      if d.tx >= |d.response| then (d.(phase := Closing), io.toRead && ConsumeRemoteClose(io.drains))
      else WriteBytes(d, io.(sends := io.sends[1..]))
  }

  /** recv was asked for no more than the reader needs. */
  function Chunk(c: Connection, bytes: seq<Byte>): (chunk: seq<Byte>)
    requires Needed(c.reader) > 0
    ensures |chunk| <= Needed(c.reader) && (bytes != [] ==> chunk != [])
  {
    bytes[..Min(|bytes|, Needed(c.reader))]
  }

  function ReceiveBytes(service: Service, c: Connection, io: Io): (Connection, bool)
    decreases |io.recvs|
  {
    if Needed(c.reader) <= 0 then (c, false)
    else if io.recvs == [] || io.recvs[0].NothingYet? then (c, true)
    else if io.recvs[0].Broken? || io.recvs[0].bytes == [] then (c, false)
    else
      var d := c.(reader := Feed(c.reader, Chunk(c, io.recvs[0].bytes)));
      if d.reader.state == ParseError then (d, false)
      else if d.reader.state == BodyValidated then Answer(service, d, io)
      else ReceiveBytes(service, d, io.(recvs := io.recvs[1..]))
  }

  function Answer(service: Service, c: Connection, io: Io): (Connection, bool)
  {
    match service(c.peer, c.reader)
    case None => (c, false)
    case Some(reply) =>
      var d := c.(response := reply, phase := Transmitting);
      if io.toWrite then WriteBytes(d, io) else (d, false)
  }

  /** Handling an event on a connection in any phase. */
  function Handle(service: Service, c: Connection, io: Io): (Connection, bool)
  {
    match c.phase
    case Idle => (c, true)
    case Receiving => ReceiveBytes(service, c, io)
    case Transmitting => WriteBytes(c, io)
    case Closing => (c, ConsumeRemoteClose(io.drains))
  }

  // ---- What holds of a connection between events ----

  /** What was sent is a prefix of the reply to exactly the message received. */
  ghost predicate Answering(service: Service, c: Connection)
  {
    && c.reader.state == BodyValidated && service(c.peer, c.reader) == Some(c.response)
    && c.tx <= |c.response| && c.sent == c.response[..c.tx]
  }

  ghost predicate ConnectionOk(service: Service, c: Connection)
  {
    && c.reader == OneShot(true, c.reader.stream)
    && match c.phase
       case Idle => false
       case Receiving => Hungry(c.reader) && Needed(c.reader) > 0 && c.sent == [] && c.tx == 0
       case Transmitting => Answering(service, c) && c.tx < |c.response|
       case Closing => Answering(service, c) && c.tx == |c.response|
  }

  function Rank(p: Phase): nat
  {
    match p case Idle => 0 case Receiving => 1 case Transmitting => 2 case Closing => 3
  }

  /** A later moment of the same connection. */
  ghost predicate Later(c: Connection, d: Connection)
  {
    && d.sock == c.sock && d.peer == c.peer && d.table == c.table && d.born == c.born
    && Rank(c.phase) <= Rank(d.phase) && c.sent <= d.sent && c.reader.stream <= d.reader.stream
  }

  lemma AdvanceOk(service: Service, c: Connection, k: nat)
    requires ConnectionOk(service, c) && c.phase == Transmitting && k <= |Rest(c)|
    ensures var d := Advance(c, k);
            && Answering(service, d) && Later(c, d)
            && d.response == c.response && d.tx == c.tx + k && d.phase == c.phase && d.reader == c.reader
  {
    hide OneShot;
    assert c.response[..c.tx] + c.response[c.tx..][..k] == c.response[..c.tx + k];
  }

  lemma {:induction false} WriteOk(service: Service, c: Connection, io: Io)
    requires ConnectionOk(service, c) && c.phase == Transmitting
    ensures var (d, kept) := WriteBytes(c, io); ConnectionOk(service, d) && Later(c, d)
    decreases |io.sends|
  {
    hide OneShot, Answering, Advance, Rest;
    if io.sends != [] && io.sends[0].Took? && io.sends[0].count != 0 {
      var k := Min(io.sends[0].count, |Rest(c)|);
      AdvanceOk(service, c, k);
      var d := Advance(c, k);
      SameAnswer(service, d);
      if d.tx < |d.response| {
        WriteOk(service, d, io.(sends := io.sends[1..]));
      }
    }
  }

  lemma SameAnswer(service: Service, c: Connection)
    requires Answering(service, c)
    ensures Answering(service, c.(phase := Closing)) && c.tx <= |c.response|
  {
  }

  /** Feeding what recv gave keeps the reader equal to one that got everything at once. */
  lemma FeedOk(r: Reader, chunk: seq<Byte>)
    requires r == OneShot(true, r.stream) && Hungry(r) && chunk != [] && Needed(r) > 0
    ensures var q := Feed(r, chunk);
            && Hungry(q) && q.stream == r.stream + chunk
            && (q.state != ParseError ==> q == OneShot(true, q.stream))
            && (q.state != ParseError && q.state != BodyValidated ==> Needed(q) > 0)
  {
    hide OneShot;
    FeedTwice(true, r.stream, chunk);
    FeedHungry(r, chunk);
    FeedStream(r, chunk);
  }

  lemma FeedStream(r: Reader, chunk: seq<Byte>)
    requires r.state != ParseError
    ensures Feed(r, chunk).stream == r.stream + chunk
  {
  }

  lemma AnswerOk(service: Service, c: Connection, io: Io)
    requires c.reader == OneShot(true, c.reader.stream) && c.reader.state == BodyValidated
    requires c.tx == 0 && c.sent == [] && c.phase == Receiving
    ensures var (d, kept) := Answer(service, c, io); (kept ==> ConnectionOk(service, d)) && Later(c, d)
  {
    hide OneShot, WriteBytes;
    match service(c.peer, c.reader)
    case None =>
    case Some(reply) =>
      var d := c.(response := reply, phase := Transmitting);
      assert d.response[..0] == [];
      WriteOk(service, d, io);
  }

  lemma {:induction false} ReceiveOk(service: Service, c: Connection, io: Io)
    requires ConnectionOk(service, c) && c.phase == Receiving
    ensures var (d, kept) := ReceiveBytes(service, c, io); (kept ==> ConnectionOk(service, d)) && Later(c, d)
    decreases |io.recvs|
  {
    hide OneShot, Answer, Needed, Hungry, Feed, Chunk;
    if io.recvs != [] && io.recvs[0].Data? && io.recvs[0].bytes != [] {
      var chunk := Chunk(c, io.recvs[0].bytes);
      FeedOk(c.reader, chunk);
      var d := c.(reader := Feed(c.reader, chunk));
      if d.reader.state == BodyValidated {
        AnswerOk(service, d, io);
      } else if d.reader.state != ParseError {
        ReceiveOk(service, d, io.(recvs := io.recvs[1..]));
      }
    }
  }

  /** Handling any event keeps a connection sound, or gives it up, and never goes back. */
  lemma HandleOk(service: Service, c: Connection, io: Io)
    requires ConnectionOk(service, c)
    ensures var (d, kept) := Handle(service, c, io); (kept ==> ConnectionOk(service, d)) && Later(c, d)
  {
    hide OneShot, WriteBytes, ReceiveBytes, Hungry, Needed;
    if c.phase == Receiving {
      ReceiveOk(service, c, io);
    } else if c.phase == Transmitting {
      WriteOk(service, c, io);
    }
  }
}

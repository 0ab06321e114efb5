/** The TCP thread and the request handler together: what a peer receives. */
module TcpAnswers {
  import opened Bits
  import opened Options
  import opened Wire
  import opened Incremental
  import opened Addresses
  import opened Sealing
  import opened Handler
  import opened Replies
  import opened Connections
  import opened Tcp
  import opened TcpSafety
  import opened TcpRuns

  function RequestOf(peer: Peer, r: Reader): Incoming
  {
    Incoming(peer.role, peer.local, peer.remote, r, true)
  }

  /** The request handler's reply, if it makes one. */
  function ReplyOf(s: Server, q: Incoming): (reply: Option<Reply>)
    requires IncomingOk(q) && s.sockets.Ok()
  {
    hide IncomingOk, AnswerMessage, SealIntegrity, Print, Printable;
    if Decide(s, q).None? then None
    else
      AnswerIsReadable(s, q);
      Some(AnswerBytes(s, q, Decide(s, q).value))
  }

  function ServiceOf(s: Server): Service
    requires s.sockets.Ok()
  {
    (peer: Peer, r: Reader) => if IncomingOk(RequestOf(peer, r)) then ReplyOf(s, RequestOf(peer, r)) else None
  }

  /** Whatever pieces recv and send moved, a peer whose connection is closing has been sent one complete
      message with its own transaction id, which on success tells it its own address. */
  lemma PeersAreAnswered(cfg: Config, s: Server, now: int, inputs: seq<Input>, id: nat)
    requires s.sockets.Ok() && cfg.service == ServiceOf(s) && PossibleRun(cfg, Start(cfg, now), inputs)
    requires Live(Run(cfg, Start(cfg, now), inputs), id) && Run(cfg, Start(cfg, now), inputs).conns[id].phase == Closing
    ensures var c := Run(cfg, Start(cfg, now), inputs).conns[id];
            var q, r := RequestOf(c.peer, c.reader), OneShot(true, c.sent);
            && IncomingOk(q) && Decide(s, q).Some? && |c.sent| <= 200
            && AnswersHeader(q, Decide(s, q).value, r)
            && (Decide(s, q).value.Success? ==> TellsAddresses(c.sent, r, c.peer.remote, Decide(s, q).value.other))
  {
    hide Run, Start, PossibleRun, Inv, ReplyOf, IncomingOk, Decide, OneShot;
    EveryRunIsSafe(cfg, now, inputs);
    var t := Run(cfg, Start(cfg, now), inputs);
    var c := t.conns[id];
    assert Sound(cfg, t, id);
    var q := RequestOf(c.peer, c.reader);
    ReplyIsReadable(s, q, c.sent);
  }

  lemma ReplyIsReadable(s: Server, q: Incoming, sent: seq<Byte>)
    requires IncomingOk(q) && s.sockets.Ok() && ReplyOf(s, q) == Some(sent)
    ensures var r := OneShot(true, sent);
            && Decide(s, q).Some? && |sent| <= 200 && AnswersHeader(q, Decide(s, q).value, r)
            && (Decide(s, q).value.Success? ==> TellsAddresses(sent, r, q.remote, Decide(s, q).value.other))
  {
    hide IncomingOk, AnswerMessage, SealIntegrity, Print, Printable, OneShot, TellsAddresses, AnswersHeader, Decide;
    AnswerIsReadable(s, q);
  }
}

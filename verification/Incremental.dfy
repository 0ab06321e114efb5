/** The incremental STUN reader as a value: feeding bytes in chunks. */
module Incremental {
  import opened Bits
  import opened Options
  import opened Wire

  datatype ParseState = HeaderNotRead | HeaderValidated | BodyValidated | ParseError

  datatype Reader = Reader(state: ParseState, stream: seq<Byte>, allowLegacy: bool, header: HeaderInfo,
                           attributes: seq<Located>)

  /** What a reader shows before it has read a header. */
  const UNREAD: HeaderInfo := HeaderInfo(0xffff, 0xff, 0, Blank(16), false)

  function Fresh(allowLegacy: bool): Reader
  {
    Reader(HeaderNotRead, [], allowLegacy, UNREAD, [])
  }

  function TakeHeader(r: Reader): Reader
  {
    if r.state == HeaderNotRead && |r.stream| >= HEADER_SIZE then
      match ReadHeader(r.stream, r.allowLegacy)
      case None => r.(state := ParseError)
      case Some(h) => r.(header := h, state := if h.length == 0 then BodyValidated else HeaderValidated)
    else r
  }

  function TakeBody(r: Reader): Reader
  {
    var total := HEADER_SIZE + r.header.length;
    if r.state == HeaderValidated && |r.stream| > total then r.(state := ParseError)
    else if r.state == HeaderValidated && |r.stream| == total then
      match ParseFrom(r.stream, HEADER_SIZE, MAX_ATTRIBUTES)
      case None => r.(state := ParseError)
      case Some(found) => r.(attributes := found, state := BodyValidated)
    else r
  }

  function RejectExcess(r: Reader): Reader
  {
    if r.state == BodyValidated && |r.stream| > HEADER_SIZE + r.header.length then r.(state := ParseError) else r
  }

  /** One call of AddBytes. */
  function Feed(r: Reader, chunk: seq<Byte>): Reader
  {
    if r.state == ParseError || chunk == [] then r
    else RejectExcess(TakeBody(TakeHeader(r.(stream := r.stream + chunk))))
  }

  function FeedAll(r: Reader, chunks: seq<seq<Byte>>): Reader
  {
    if chunks == [] then r else Feed(FeedAll(r, chunks[..|chunks| - 1]), chunks[|chunks| - 1])
  }

  function Concat(chunks: seq<seq<Byte>>): seq<Byte>
  {
    if chunks == [] then [] else Concat(chunks[..|chunks| - 1]) + chunks[|chunks| - 1]
  }

  /** Two readers agree when their states do and, unless both failed, everything else does too. */
  predicate Agree(r: Reader, q: Reader)
  {
    r.state == q.state && (r.state != ParseError ==> r == q)
  }

  // ---- The state as a function of all bytes seen ----

  /** The reader that was given everything at once. */
  function OneShot(allowLegacy: bool, b: seq<Byte>): Reader
  {
    Feed(Fresh(allowLegacy), b)
  }

  lemma EmptyBody(b: seq<Byte>)
    requires |b| == HEADER_SIZE
    ensures ParseFrom(b, HEADER_SIZE, MAX_ATTRIBUTES) == Some([])
  {
  }

  lemma AcceptedIffParsed(allowLegacy: bool, b: seq<Byte>)
    ensures OneShot(allowLegacy, b).state == BodyValidated <==>
              && |b| >= HEADER_SIZE && ReadHeader(b, allowLegacy).Some?
              && |b| == HEADER_SIZE + ReadHeader(b, allowLegacy).value.length
              && ParseFrom(b, HEADER_SIZE, MAX_ATTRIBUTES).Some?
    ensures OneShot(allowLegacy, b).state == BodyValidated ==>
              && OneShot(allowLegacy, b).stream == b
              && OneShot(allowLegacy, b).header == ReadHeader(b, allowLegacy).value
              && Some(OneShot(allowLegacy, b).attributes) == ParseFrom(b, HEADER_SIZE, MAX_ATTRIBUTES)
  {
    hide ParseFrom, ReadHeader;
    assert [] + b == b;
    if |b| == HEADER_SIZE {
      EmptyBody(b);
    }
  }

  /** A message is accepted exactly when its header is valid, its length is the one announced, and
      its body is a sequence of at most thirty padded records. */
  lemma AcceptedIffWellFormed(allowLegacy: bool, b: seq<Byte>)
    ensures OneShot(allowLegacy, b).state == BodyValidated <==>
              && |b| >= HEADER_SIZE && ReadHeader(b, allowLegacy).Some?
              && |b| == HEADER_SIZE + ReadHeader(b, allowLegacy).value.length
              && exists rs :: IsBody(b, rs)
  {
    AcceptedIffParsed(allowLegacy, b);
    if |b| >= HEADER_SIZE {
      BodyIsRecords(b);
    }
    hide OneShot, ReadHeader, ParseFrom, IsBody, Locate;
  }

  /** An accepted message's attributes lie inside it, four-aligned, and there are at most thirty. */
  lemma AcceptedInBounds(allowLegacy: bool, b: seq<Byte>, i: nat)
    requires OneShot(allowLegacy, b).state == BodyValidated && i < |OneShot(allowLegacy, b).attributes|
    ensures InBounds(b, OneShot(allowLegacy, b).attributes[i])
    ensures |OneShot(allowLegacy, b).attributes| <= MAX_ATTRIBUTES
  {
    AcceptedIffParsed(allowLegacy, b);
    hide OneShot;
    ParsedInBounds(b, HEADER_SIZE, MAX_ATTRIBUTES, i);
    ParsedCount(b, HEADER_SIZE, MAX_ATTRIBUTES);
  }

  lemma HeaderOfPrefix(b: seq<Byte>, c: seq<Byte>, allowLegacy: bool)
    requires |b| >= HEADER_SIZE
    ensures ReadHeader(b + c, allowLegacy) == ReadHeader(b, allowLegacy)
  {
    assert (b + c)[4..20] == b[4..20];
  }

  /** Feeding in two steps is feeding at once: before the header is complete ... */
  lemma FeedTwiceEarly(allowLegacy: bool, b: seq<Byte>, c: seq<Byte>)
    requires |b| < HEADER_SIZE
    ensures Feed(OneShot(allowLegacy, b), c) == OneShot(allowLegacy, b + c)
  {
    hide ReadHeader, ParseFrom;
    assert [] + b == b && [] + (b + c) == b + c;
    if c == [] {
      assert b + c == b;
    }
  }

  /** ... and after. */
  lemma FeedTwiceLate(allowLegacy: bool, b: seq<Byte>, c: seq<Byte>)
    requires |b| >= HEADER_SIZE && c != []
    ensures Agree(Feed(OneShot(allowLegacy, b), c), OneShot(allowLegacy, b + c))
  {
    hide ReadHeader, ParseFrom;
    assert [] + b == b && [] + (b + c) == b + c;
    HeaderOfPrefix(b, c, allowLegacy);
  }

  lemma FeedTwice(allowLegacy: bool, b: seq<Byte>, c: seq<Byte>)
    ensures Agree(Feed(OneShot(allowLegacy, b), c), OneShot(allowLegacy, b + c))
  {
    if |b| < HEADER_SIZE {
      FeedTwiceEarly(allowLegacy, b, c);
    } else if c != [] {
      FeedTwiceLate(allowLegacy, b, c);
    } else {
      assert b + c == b;
    }
  }

  lemma FeedAgrees(r: Reader, q: Reader, c: seq<Byte>)
    requires Agree(r, q)
    ensures Agree(Feed(r, c), Feed(q, c))
  {
  }

  /** The outcome depends only on the bytes fed, never on how they were cut into chunks. */
  lemma {:induction false} ChunkingIsIrrelevant(allowLegacy: bool, chunks: seq<seq<Byte>>)
    ensures Agree(FeedAll(Fresh(allowLegacy), chunks), OneShot(allowLegacy, Concat(chunks)))
    decreases |chunks|
  {
    if chunks != [] {
      var init, last := chunks[..|chunks| - 1], chunks[|chunks| - 1];
      ChunkingIsIrrelevant(allowLegacy, init);
      FeedAgrees(FeedAll(Fresh(allowLegacy), init), OneShot(allowLegacy, Concat(init)), last);
      FeedTwice(allowLegacy, Concat(init), last);
    }
  }

  // ---- Feeding no more than asked for ----

  function Needed(r: Reader): int
  {
    match r.state
    case HeaderNotRead => HEADER_SIZE - |r.stream|
    case HeaderValidated => r.header.length + HEADER_SIZE - |r.stream|
    case _ => 0
  }

  /** Every chunk is at most what the reader asked for. */
  predicate Obedient(r: Reader, chunks: seq<seq<Byte>>)
    decreases |chunks|
  {
    chunks != [] ==>
      && Obedient(r, chunks[..|chunks| - 1])
      && |chunks[|chunks| - 1]| <= Needed(FeedAll(r, chunks[..|chunks| - 1]))
  }

  /** A reader in the middle of a message asks for at least one byte and at most 800. */
  ghost predicate Hungry(r: Reader)
  {
    && (r.state == HeaderNotRead ==> |r.stream| < HEADER_SIZE)
    && (r.state == HeaderValidated ==>
          HEADER_SIZE <= |r.stream| < HEADER_SIZE + r.header.length <= HEADER_SIZE + MAX_MESSAGE_SIZE)
  }

  lemma FeedHungry(r: Reader, c: seq<Byte>)
    requires Hungry(r)
    ensures Hungry(Feed(r, c))
  {
  }

  /** In every run: until the outcome is final the reader asks for a positive number of bytes, never
      more than 800; afterwards for none. */
  lemma {:induction false} AsksForSome(allowLegacy: bool, chunks: seq<seq<Byte>>)
    ensures var r := FeedAll(Fresh(allowLegacy), chunks);
            && Hungry(r) && 0 <= Needed(r) <= MAX_MESSAGE_SIZE
            && (Needed(r) > 0 <==> r.state == HeaderNotRead || r.state == HeaderValidated)
    decreases |chunks|
  {
    if chunks != [] {
      AsksForSome(allowLegacy, chunks[..|chunks| - 1]);
      FeedHungry(FeedAll(Fresh(allowLegacy), chunks[..|chunks| - 1]), chunks[|chunks| - 1]);
    }
  }

  /** No byte beyond the announced end has arrived. */
  predicate NotOverfed(r: Reader)
  {
    && |r.stream| <= HEADER_SIZE + MAX_MESSAGE_SIZE
    && (|r.stream| > HEADER_SIZE ==>
          ReadHeader(r.stream, r.allowLegacy).Some? &&
          |r.stream| <= HEADER_SIZE + ReadHeader(r.stream, r.allowLegacy).value.length)
    && (r.state == HeaderValidated ==>
          |r.stream| >= HEADER_SIZE && ReadHeader(r.stream, r.allowLegacy) == Some(r.header))
  }

  lemma FeedNotOverfed(r: Reader, c: seq<Byte>)
    requires Hungry(r) && NotOverfed(r) && |c| <= Needed(r)
    ensures NotOverfed(Feed(r, c))
  {
    if r.state == HeaderValidated && c != [] {
      HeaderOfPrefix(r.stream, c, r.allowLegacy);
    }
  }

  /** A caller that feeds at most what is asked for never feeds a byte past the message's end. */
  lemma {:induction false} ObedientNeverOverfeeds(allowLegacy: bool, chunks: seq<seq<Byte>>)
    requires Obedient(Fresh(allowLegacy), chunks)
    ensures NotOverfed(FeedAll(Fresh(allowLegacy), chunks))
    decreases |chunks|
  {
    if chunks != [] {
      var init := chunks[..|chunks| - 1];
      ObedientNeverOverfeeds(allowLegacy, init);
      AsksForSome(allowLegacy, init);
      FeedNotOverfed(FeedAll(Fresh(allowLegacy), init), chunks[|chunks| - 1]);
    }
  }
}

/** CStunMessageReader over its stream: the loops that carry out Incremental.Feed. */
module StunReader {
  import opened Bits
  import opened Options
  import opened Wire
  import opened Incremental
  import opened Stream
  import Sealing

  /** The parser's own view of one record: everything found so far, then the rest. */
  lemma ParseContinues(b: seq<Byte>, found: seq<Located>, pos: nat)
    requires HEADER_SIZE <= pos < |b| && |found| < MAX_ATTRIBUTES && NextRecord(b, pos).Some?
    requires ParseFrom(b, HEADER_SIZE, MAX_ATTRIBUTES) == Prepend(found, ParseFrom(b, pos, MAX_ATTRIBUTES - |found|))
    ensures var a := NextRecord(b, pos).value;
            && pos < EndOf(a) <= |b|
            && ParseFrom(b, HEADER_SIZE, MAX_ATTRIBUTES)
               == Prepend(found + [a], ParseFrom(b, EndOf(a), MAX_ATTRIBUTES - |found| - 1))
  {
    var a := NextRecord(b, pos).value;
    var rest := ParseFrom(b, EndOf(a), MAX_ATTRIBUTES - |found| - 1);
    if rest.Some? {
      assert (found + [a]) + rest.value == found + ([a] + rest.value);
    }
  }

  function Prepend(found: seq<Located>, rest: Option<seq<Located>>): Option<seq<Located>>
  {
    if rest.None? then None else Some(found + rest.value)
  }

  predicate Within(a: Located, size: nat)
  {
    HEADER_SIZE + 4 <= a.offset && a.offset % 4 == 0 && a.offset + a.size <= size
  }

  lemma ParsedWithin(b: seq<Byte>)
    requires |b| >= HEADER_SIZE && ParseFrom(b, HEADER_SIZE, MAX_ATTRIBUTES).Some?
    ensures forall i :: 0 <= i < |ParseFrom(b, HEADER_SIZE, MAX_ATTRIBUTES).value| ==>
              Within(ParseFrom(b, HEADER_SIZE, MAX_ATTRIBUTES).value[i], |b|)
  {
    hide ParseFrom;
    var fs := ParseFrom(b, HEADER_SIZE, MAX_ATTRIBUTES).value;
    forall i | 0 <= i < |fs| ensures Within(fs[i], |b|) {
      ParsedInBounds(b, HEADER_SIZE, MAX_ATTRIBUTES, i);
    }
  }

  lemma PrependNothing(rest: Option<seq<Located>>)
    ensures Prepend([], rest) == rest
  {
    if rest.Some? {
      assert [] + rest.value == rest.value;
    }
  }

  class StunMessageReader {
    const stream: DataStream
    var allowLegacy: bool
    var state: ParseState
    var header: HeaderInfo
    var attributes: seq<Located>
    var indexFingerprint: int
    var indexIntegrity: int

    ghost predicate Valid()
      reads this, stream, stream.buffer
    {
      && stream.Valid() && !stream.noGrow
      && (state != ParseError ==> Indexed() && InMessage())
      && (state == HeaderNotRead || state == HeaderValidated ==> attributes == [])
      && (state == HeaderValidated || state == BodyValidated ==> stream.buffer.size >= HEADER_SIZE)
    }

    /** Every recorded attribute lies inside the bytes read, four-aligned. */
    ghost predicate InMessage()
      reads this, stream, stream.buffer
    {
      forall i :: 0 <= i < |attributes| ==> Within(attributes[i], stream.buffer.size)
    }

    /** The recorded positions are those of the attributes a lookup finds: the last of their kind. */
    ghost predicate Indexed()
      reads this
    {
      && indexFingerprint == Sealing.LastIndex(attributes, Sealing.FINGERPRINT)
      && indexIntegrity == Sealing.LastIndex(attributes, Sealing.INTEGRITY)
    }

    ghost function Model(): Reader
      reads this, stream, stream.buffer, stream.buffer.data
      requires Valid()
    {
      Reader(state, stream.Contents(), allowLegacy, header, attributes)
    }

    constructor ()
      ensures Valid() && Model() == Fresh(true)
      ensures fresh(stream) && fresh(stream.buffer) && fresh(stream.buffer.data)
    {
      stream := new DataStream();
      allowLegacy, state, header, attributes := true, HeaderNotRead, UNREAD, [];
      indexFingerprint, indexIntegrity := -1, -1;
    }

    method HowManyBytesNeeded() returns (n: int)
      requires Valid()
      ensures n == Needed(Model())
    {
      match state
      case HeaderNotRead => n := HEADER_SIZE - stream.buffer.size;
      case HeaderValidated => n := header.length + HEADER_SIZE - stream.buffer.size;
      case _ => n := 0;
    }

    method ParseHeader() returns (ok: bool)
      requires Valid() && stream.buffer.size >= HEADER_SIZE
      modifies this, stream
      ensures stream.Valid() && !stream.noGrow && stream.Contents() == old(stream.Contents())
      ensures stream.buffer == old(stream.buffer)
      ensures state == old(state) && allowLegacy == old(allowLegacy) && attributes == old(attributes)
      ensures indexFingerprint == old(indexFingerprint) && indexIntegrity == old(indexIntegrity)
      ensures ok <==> Wire.ReadHeader(stream.Contents(), allowLegacy).Some?
      ensures ok ==> header == Wire.ReadHeader(stream.Contents(), allowLegacy).value
    {
      hide MethodOf, ClassOf;
      ghost var b := stream.Contents();
      var r := stream.SeekDirect(0);
      var typeBytes, lengthBytes, tid;
      r, typeBytes := stream.Read(2);
      r, lengthBytes := stream.Read(2);
      r, tid := stream.Read(16);
      assert typeBytes == b[0..2] && lengthBytes == b[2..4] && tid == b[4..20];
      var t, length := GetU16(typeBytes, 0), GetU16(lengthBytes, 0);
      assert t == GetU16(b, 0) && length == GetU16(b, 2);
      var legacy := tid[..4] != COOKIE;
      if !(t < 0x4000 && length % 4 == 0 && (allowLegacy || !legacy)) {
        return false;
      }
      if length > MAX_MESSAGE_SIZE {
        return false;
      }
      header := HeaderInfo(MethodOf(t), ClassOf(t), length, tid, legacy);
      return true;
    }

    /** Kind, size and place of the next record, unless it is cut short or too long. */
    method ReadRecordHeader() returns (ok: bool, a: Located)
      requires stream.Valid()
      modifies stream
      ensures stream.Valid() && stream.noGrow == old(stream.noGrow)
      ensures stream.buffer == old(stream.buffer) && stream.Contents() == old(stream.Contents())
      ensures var b, p := stream.Contents(), old(stream.pos);
              && (ok <==> p + 4 <= |b| && GetU16(b, p + 2) <= MAX_ATTRIBUTE_SIZE)
              && (ok ==> a == Located(GetU16(b, p), GetU16(b, p + 2), p + 4) && stream.pos == p + 4)
    {
      ghost var b, p := stream.Contents(), stream.pos;
      a := Located(0, 0, 0);
      var kindBytes, sizeBytes;
      ok, kindBytes := stream.Read(2);
      if !ok { return; }
      ok, sizeBytes := stream.Read(2);
      if !ok { return; }
      assert kindBytes == b[p..p + 2] && sizeBytes == b[p + 2..p + 4];
      var kind, size := GetU16(kindBytes, 0), GetU16(sizeBytes, 0);
      assert kind == GetU16(b, p) && size == GetU16(b, p + 2);
      a := Located(kind, size, stream.pos);
      ok := size <= MAX_ATTRIBUTE_SIZE;
    }

    method SkipValue(a: Located) returns (ok: bool)
      requires stream.Valid() && stream.pos == a.offset
      modifies stream
      ensures stream.Valid() && stream.noGrow == old(stream.noGrow)
      ensures stream.buffer == old(stream.buffer) && stream.Contents() == old(stream.Contents())
      ensures ok <==> EndOf(a) <= |stream.Contents()|
      ensures ok ==> stream.pos == EndOf(a)
    {
      ok := stream.SeekRelative(a.size);
      if ok && Pad(a.size) > 0 {
        ok := stream.SeekRelative(Pad(a.size));
      }
    }

    /** Records one attribute; the table takes thirty. */
    method Record(a: Located) returns (ok: bool)
      requires Indexed()
      modifies this
      ensures ok <==> |old(attributes)| < MAX_ATTRIBUTES
      ensures Indexed() && attributes == if ok then old(attributes) + [a] else old(attributes)
      ensures state == old(state) && allowLegacy == old(allowLegacy) && header == old(header)
    {
      ok := |attributes| < MAX_ATTRIBUTES;
      if ok {
        Sealing.LastIndexAppend(attributes, a, Sealing.FINGERPRINT);
        Sealing.LastIndexAppend(attributes, a, Sealing.INTEGRITY);
        if a.kind == Sealing.FINGERPRINT {
          indexFingerprint := |attributes|;
        }
        if a.kind == Sealing.INTEGRITY {
          indexIntegrity := |attributes|;
        }
        attributes := attributes + [a];
      }
    }

    /** One round of the body loop: `ok` exactly when a record was there and there was room for it. */
    method TakeRecord() returns (ok: bool)
      requires stream.Valid() && stream.pos < stream.buffer.size && Indexed()
      modifies this, stream
      ensures stream.Valid() && stream.noGrow == old(stream.noGrow)
      ensures stream.buffer == old(stream.buffer) && stream.Contents() == old(stream.Contents())
      ensures state == old(state) && allowLegacy == old(allowLegacy) && header == old(header)
      ensures var a := NextRecord(stream.Contents(), old(stream.pos));
              && (ok <==> a.Some? && |old(attributes)| < MAX_ATTRIBUTES)
              && (ok ==> Indexed() && attributes == old(attributes) + [a.value] && stream.pos == EndOf(a.value))
    {
      hide GetU16, Sealing.LastIndex;
      var a;
      ok, a := ReadRecordHeader();
      if ok {
        ok := Record(a);
      }
      if ok {
        ok := SkipValue(a);
      }
    }

    method ReadBody() returns (ok: bool)
      requires Valid() && state == HeaderValidated && stream.buffer.size >= HEADER_SIZE
      modifies this, stream
      ensures stream.Valid() && !stream.noGrow
      ensures stream.buffer == old(stream.buffer) && stream.Contents() == old(stream.Contents())
      ensures state == old(state) && allowLegacy == old(allowLegacy) && header == old(header)
      ensures ok <==> ParseFrom(stream.Contents(), HEADER_SIZE, MAX_ATTRIBUTES).Some?
      ensures ok ==> Indexed() && attributes == ParseFrom(stream.Contents(), HEADER_SIZE, MAX_ATTRIBUTES).value
    {
      hide NextRecord, Sealing.LastIndex;
      ghost var b := stream.Contents();
      var size, consumed := stream.buffer.size, HEADER_SIZE;
      ok := stream.SeekDirect(HEADER_SIZE);
      PrependNothing(ParseFrom(b, HEADER_SIZE, MAX_ATTRIBUTES));
      while ok && consumed < size
        invariant stream.Valid() && !stream.noGrow && stream.buffer == old(stream.buffer) && stream.Contents() == b
        invariant state == old(state) && allowLegacy == old(allowLegacy) && header == old(header)
        invariant HEADER_SIZE <= consumed <= size == |b|
        invariant ok ==> Indexed() && |attributes| <= MAX_ATTRIBUTES && consumed == stream.pos
        invariant ok ==> ParseFrom(b, HEADER_SIZE, MAX_ATTRIBUTES)
                         == Prepend(attributes, ParseFrom(b, consumed, MAX_ATTRIBUTES - |attributes|))
        invariant !ok ==> consumed < size && ParseFrom(b, HEADER_SIZE, MAX_ATTRIBUTES).None?
        decreases ok, size - consumed
      {
        ghost var found := attributes;
        ok := TakeRecord();
        if ok {
          ParseContinues(b, found, consumed);
          hide NextRecord, ParseFrom;
          consumed := stream.pos;
        }
      }
      ok := consumed == size;
    }

    /** Feeds a chunk; what the reader has become is what Incremental says. */
    method AddBytes(chunk: seq<Byte>) returns (s: ParseState)
      requires Valid()
      modifies this, stream, stream.buffer, stream.buffer.data
      ensures Valid() && s == state && Agree(Model(), Feed(old(Model()), chunk))
      ensures stream.buffer == old(stream.buffer) || (fresh(stream.buffer) && fresh(stream.buffer.data))
    {
      if state == ParseError || chunk == [] {
        return state;
      }
      ghost var r := Model();
      Append(chunk);
      assert Model() == r.(stream := r.stream + chunk);
      TryHeader();
      TryBody();
      if state == BodyValidated && stream.buffer.size > header.length + HEADER_SIZE {
        state := ParseError;
      }
      return state;
    }

    method Append(chunk: seq<Byte>)
      requires Valid() && chunk != []
      modifies stream, stream.buffer, stream.buffer.data
      ensures Valid() && Model() == old(Model()).(stream := old(stream.Contents()) + chunk)
      ensures stream.buffer == old(stream.buffer) || (fresh(stream.buffer) && fresh(stream.buffer.data))
    {
      var ok := stream.SeekDirect(stream.buffer.size);
      OverwriteEnd(stream.Contents(), chunk);
      ok := stream.Write(chunk);
    }

    method TryHeader()
      requires Valid()
      modifies this, stream
      ensures Valid() && Agree(Model(), TakeHeader(old(Model()))) && stream.buffer == old(stream.buffer)
    {
      hide Wire.ReadHeader;
      if state == HeaderNotRead && stream.buffer.size >= HEADER_SIZE {
        var ok := ParseHeader();
        state := if !ok then ParseError else if header.length == 0 then BodyValidated else HeaderValidated;
      }
    }

    method TryBody()
      requires Valid()
      modifies this, stream
      ensures Valid() && Agree(Model(), TakeBody(old(Model()))) && stream.buffer == old(stream.buffer)
    {
      hide ParseFrom;
      if state == HeaderValidated && stream.buffer.size >= header.length + HEADER_SIZE {
        if stream.buffer.size == header.length + HEADER_SIZE {
          var ok := ReadBody();
          if ok {
            ParsedWithin(stream.Contents());
          }
          state := if ok then BodyValidated else ParseError;
        } else {
          state := ParseError;
        }
      }
    }

    /** The recorded integrity attribute, if there is one and nothing but a fingerprint follows it. */
    method IntegrityAttribute() returns (ok: bool, a: Located, adjust: bool)
      requires Valid() && state == BodyValidated
      ensures var last := |attributes| - 1;
              && (ok <==> indexIntegrity >= 0 && attributes[indexIntegrity].size == 20
                          && (indexIntegrity == last || (indexIntegrity == last - 1 && indexFingerprint == last)))
              && (ok ==> a == attributes[indexIntegrity] && adjust == (indexIntegrity == last - 1))
    {
      ok, a, adjust := false, Located(0, 0, 0), false;
      var last := |attributes| - 1;
      if |attributes| == 0 || indexIntegrity == -1 {
        return;
      }
      a := attributes[indexIntegrity];
      if a.size != 20 {
        return;
      }
      ok := indexIntegrity == last || (indexIntegrity == last - 1 && indexFingerprint == last);
      adjust := indexIntegrity == last - 1;
    }

    /** Collects what is hashed: type, adjusted length, then four bytes at a time up to the attribute. */
    method HashedText(a: Located, adjust: bool) returns (text: seq<Byte>)
      requires Valid() && Within(a, stream.buffer.size)
      ensures text == Sealing.Rehashed(stream.Contents(), a, adjust)
    {
      hide GetU16, PutU16;
      ghost var b := stream.Contents();
      var data := stream.buffer.data;
      var length: int := GetU16(data[..stream.buffer.size], 2);
      if adjust {
        length := (length - 8) % 0x1_0000;
      }
      text := data[..2] + PutU16(length);
      var chunks := (a.offset - 4 - 4) / 4;
      for count := 0 to chunks
        invariant text == b[..2] + PutU16(length) + b[4..4 + 4 * count]
      {
        var pos := 4 + 4 * count;
        text := text + data[pos..pos + 4];
        assert b[4..pos + 4] == b[4..pos] + b[pos..pos + 4];
      }
      assert 4 + 4 * chunks == a.offset - 4;
    }

    /** Succeeds exactly when the message carries a valid integrity attribute for this key. */
    method ValidateMessageIntegrity(hmac: Sealing.MacFn, key: seq<Byte>) returns (ok: bool)
      requires Valid()
      ensures state == BodyValidated ==> Sealing.Usable(stream.Contents(), attributes)
      ensures ok <==> state == BodyValidated && Sealing.IntegrityValid(hmac, key, stream.Contents(), attributes)
    {
      ok := false;
      if state != BodyValidated {
        return;
      }
      assert forall i :: 0 <= i < |attributes| ==> Within(attributes[i], stream.buffer.size);
      var a, adjust;
      ok, a, adjust := IntegrityAttribute();
      if !ok || key == [] {
        return false;
      }
      hide Sealing.Rehashed;
      assert Within(a, stream.buffer.size);
      var text := HashedText(a, adjust);
      assert stream.Contents()[a.offset..a.offset + 20] == stream.buffer.data[a.offset..a.offset + 20];
      ok := hmac(key, text) == stream.buffer.data[a.offset..a.offset + 20];
    }

    /** The text a fingerprint covers and the value stored in it. */
    method FingerprintParts() returns (found: bool, text: seq<Byte>, stored: seq<Byte>)
      requires Valid() && state == BodyValidated
      ensures Sealing.Usable(stream.Contents(), attributes)
      ensures var b, i := stream.Contents(), Sealing.LastIndex(attributes, Sealing.FINGERPRINT);
              && (found <==> i != -1 && attributes[i].size == 4)
              && (found ==> text == b[..|b| - 8] && stored == b[attributes[i].offset..attributes[i].offset + 4])
    {
      found, text, stored := false, [], [];
      assert forall i :: 0 <= i < |attributes| ==> Within(attributes[i], stream.buffer.size);
      var i := Sealing.LastIndex(attributes, Sealing.FINGERPRINT);
      if i != -1 && attributes[i].size == 4 {
        var a, size := attributes[i], stream.buffer.size;
        assert Within(a, size);
        found, text, stored := true, stream.buffer.data[..size - 8], stream.buffer.data[a.offset..a.offset + 4];
      }
    }

    /** Checks the fingerprint with the table-driven code. */
    method IsFingerprintAttributeValid() returns (ok: bool)
      requires Valid()
      ensures state == BodyValidated ==> Sealing.Usable(stream.Contents(), attributes)
      ensures ok <==> state == BodyValidated && Sealing.FingerprintValid(stream.Contents(), attributes)
    {
      hide Sealing.FingerprintOf, Sealing.LastIndex;
      ok := state == BodyValidated;
      if ok {
        var text, stored;
        ghost var b := stream.Contents();
        ok, text, stored := FingerprintParts();
        var computed := Sealing.ComputeFingerprint(text);
        assert stream.Contents() == b;
        ok := ok && computed == stored;
      }
    }
  }
}

/** CStunMessageBuilder: every Add method appends to the stream; the length field is overwritten in place. */
module StunBuilder {
  import opened Bits
  import opened Options
  import opened Wire
  import opened Stream
  import opened Sealing
  import opened Addresses

  const ERROR_CODE: nat := 0x0009

  class StunMessageBuilder {
    const stream: DataStream
    var tid: seq<Byte>
    var legacy: bool

    ghost predicate Valid()
      reads this, stream, stream.buffer
    {
      stream.Valid() && !stream.noGrow && stream.pos == stream.buffer.size && |tid| == 16
    }

    ghost function Contents(): seq<Byte>
      reads this, stream, stream.buffer, stream.buffer.data
      requires Valid()
    {
      stream.Contents()
    }

    /** The buffer is replaced only when the text outgrows it. */
    twostate predicate Kept()
      reads this, stream, stream.buffer
      requires old(Valid()) && Valid()
    {
      && (stream.buffer.size <= old(stream.buffer.data.Length) ==> stream.buffer == old(stream.buffer))
      && (stream.buffer == old(stream.buffer) || (fresh(stream.buffer) && fresh(stream.buffer.data)))
    }

    /** A builder writing into the caller's buffer. */
    constructor (b: Buffer, legacy: bool)
      requires b.Valid()
      modifies b
      ensures Valid() && Contents() == [] && this.legacy == legacy
      ensures fresh(stream) && stream.buffer == b
    {
      stream := new DataStream();
      tid, this.legacy := Blank(16), legacy;
      new;
      stream.Attach(b, true);
    }

    method Emit(d: seq<Byte>)
      requires Valid() && d != []
      modifies stream, stream.buffer, stream.buffer.data
      ensures Valid() && Contents() == old(Contents()) + d && Kept()
    {
      OverwriteEnd(stream.Contents(), d);
      var ok := stream.Write(d);
    }

    /** The length is left blank; a buffer of less than 200 bytes is replaced. */
    method AddHeader(method_: nat, cls: nat)
      requires Valid() && Contents() == [] && method_ < 0x1000 && cls < 4
      modifies stream, stream.buffer, stream.buffer.data
      ensures Valid() && Contents() == PutU16(TypeField(method_, cls)) + [0, 0]
      ensures old(stream.buffer.data.Length) >= 200 ==> stream.buffer == old(stream.buffer)
      ensures stream.buffer == old(stream.buffer) || (fresh(stream.buffer) && fresh(stream.buffer.data))
    {
      hide TypeField, PutU16;
      var ok := stream.Grow(200);
      Emit(PutU16(TypeField(method_, cls)));
      Emit([0, 0]);
    }

    method AddTransactionId(t: seq<Byte>)
      requires Valid() && |t| == 16
      modifies this, stream, stream.buffer, stream.buffer.data
      ensures Valid() && Contents() == old(Contents()) + t && tid == t && legacy == old(legacy) && Kept()
    {
      tid := t;
      Emit(t);
    }

    method AddAttributeHeader(kind: nat, size: nat)
      requires Valid() && kind < 0x1_0000 && size < 0x1_0000
      modifies stream, stream.buffer, stream.buffer.data
      ensures Valid() && Contents() == old(Contents()) + (PutU16(kind) + PutU16(size)) && Kept()
    {
      hide PutU16;
      Emit(PutU16(kind));
      Emit(PutU16(size));
    }

    /** Value and zero padding; nothing is written for an empty value. */
    method AddValue(value: seq<Byte>)
      requires Valid()
      modifies stream, stream.buffer, stream.buffer.data
      ensures Valid() && Contents() == old(Contents()) + (value + Blank(Pad(|value|))) && Kept()
    {
      hide Pad;
      if value != [] {
        Emit(value);
      }
      if Pad(|value|) > 0 {
        Emit(Blank(Pad(|value|)));
      }
    }

    /** Any value a 16-bit size can tell; the header field wraps around when legacy padding overflows it. A
        value the reader takes makes a record. */
    method AddAttribute(kind: nat, value: seq<Byte>)
      requires Valid() && kind < 0x1_0000 && |value| < 0x1_0000
      modifies stream, stream.buffer, stream.buffer.data
      ensures Valid() && Kept()
      ensures Contents() == old(Contents()) + (PutU16(kind) + PutU16(HeaderSize(legacy, |value|)))
                            + (value + Blank(Pad(|value|)))
      ensures |value| <= MAX_ATTRIBUTE_SIZE ==> RecordOk(ToRecord(legacy, Attribute(kind, value)))
      ensures |value| <= MAX_ATTRIBUTE_SIZE ==>
                Contents() == old(Contents()) + RecordBytes(ToRecord(legacy, Attribute(kind, value)))
    {
      var sizeHeader := HeaderSize(legacy, |value|);
      if |value| <= MAX_ATTRIBUTE_SIZE {
        AttributeBytes(legacy, kind, value);
      }
      hide PutU16, RecordBytes, RecordOk, ToRecord, Pad, HeaderSize;
      AddAttributeHeader(kind, sizeHeader);
      AddValue(value);
    }

    /** Fails for a reason of 128 bytes or more, or a number outside 300..600. */
    method AddErrorCode(number: nat, reason: seq<Byte>) returns (ok: bool)
      requires Valid()
      modifies stream, stream.buffer, stream.buffer.data
      ensures ok <==> |reason| < 128 && 300 <= number <= 600
      ensures Valid() && Kept() && (!ok ==> Contents() == old(Contents()))
      ensures ok ==> var a := Attribute(ERROR_CODE, ErrorValue(number, reason));
                     RecordOk(ToRecord(legacy, a)) && Contents() == old(Contents()) + RecordBytes(ToRecord(legacy, a))
    {
      ok := |reason| < 128 && 300 <= number <= 600;
      if ok {
        AddAttribute(ERROR_CODE, ErrorValue(number, reason));
      }
    }

    /** An unused byte and the family. */
    method AddFamily(v6: bool)
      requires Valid()
      modifies stream, stream.buffer, stream.buffer.data
      ensures Valid() && Contents() == old(Contents()) + [0, if v6 then 2 else 1] && Kept()
    {
      Emit([0]);
      Emit([if v6 then 2 else 1]);
    }

    method AddAddressValue(a: Address)
      requires Valid() && AddressOk(a)
      modifies stream, stream.buffer, stream.buffer.data
      ensures Valid() && Contents() == old(Contents()) + AddressValue(a) && Kept()
    {
      AddFamily(a.v6);
      Emit(a.port);
      Emit(a.ip);
    }

    method AddMappedAddressImpl(kind: nat, a: Address)
      requires Valid() && kind < 0x1_0000 && AddressOk(a)
      modifies stream, stream.buffer, stream.buffer.data
      ensures RecordOk(ToRecord(legacy, Attribute(kind, AddressValue(a))))
      ensures Valid() && Contents() == old(Contents()) + RecordBytes(ToRecord(legacy, Attribute(kind, AddressValue(a))))
      ensures Kept()
    {
      PlainRecord(legacy, Attribute(kind, AddressValue(a)));
      hide PutU16, RecordBytes, ToRecord, AddressValue;
      AddAttributeHeader(kind, if a.v6 then 20 else 8);
      AddAddressValue(a);
    }

    method FixLengthField() returns (ok: bool)
      requires Valid()
      modifies stream, stream.buffer, stream.buffer.data
      ensures Valid() && Kept() && (ok <==> |old(Contents())| >= HEADER_SIZE)
      ensures Contents() == if ok then WithLength(old(Contents())) else old(Contents())
    {
      hide PutU16;
      var size := stream.buffer.size;
      ok := size >= HEADER_SIZE;
      if ok {
        var back := stream.pos;
        var r := stream.SeekDirect(2);
        r := stream.Write(PutU16((size - HEADER_SIZE) % 0x1_0000));
        r := stream.SeekDirect(back);
      }
    }

    /** Replaces the last bytes. */
    method Patch(d: seq<Byte>)
      requires Valid() && 0 < |d| <= stream.buffer.size
      modifies stream, stream.buffer, stream.buffer.data
      ensures Valid() && Kept() && Contents() == old(Contents())[..|old(Contents())| - |d|] + d
    {
      var ok := stream.SeekRelative(-|d|);
      ok := stream.Write(d);
    }

    method AppendBlank(kind: nat, size: nat)
      requires Valid() && kind < 0x1_0000 && size <= MAX_ATTRIBUTE_SIZE && size % 4 == 0
      requires stream.buffer.size >= HEADER_SIZE
      modifies stream, stream.buffer, stream.buffer.data
      ensures Valid() && Kept() && Contents() == Extend(old(Contents()), kind, size)
    {
      PlainRecord(legacy, Attribute(kind, Blank(size)));
      hide RecordBytes, ToRecord, WithLength, PutU16;
      AddAttribute(kind, Blank(size));
      var ok := FixLengthField();
    }

    /** The text written so far, without its last `n` bytes. */
    method AllBut(n: nat) returns (text: seq<Byte>)
      requires Valid() && n <= stream.buffer.size
      ensures text == Contents()[..|Contents()| - n]
    {
      text := stream.buffer.data[..stream.buffer.size - n];
    }

    /** An empty key is refused. */
    method AddMessageIntegrity(hmac: MacFn, key: seq<Byte>) returns (ok: bool)
      requires Valid() && stream.buffer.size >= HEADER_SIZE
      modifies stream, stream.buffer, stream.buffer.data
      ensures Valid() && Kept() && (ok <==> key != [])
      ensures Contents() == if ok then SealIntegrity(hmac, key, old(Contents())) else old(Contents())
    {
      hide Extend, PutU16;
      ok := key != [];
      if ok {
        AppendBlank(INTEGRITY, 20);
        var text := AllBut(24);
        assert text == Extend(old(Contents()), INTEGRITY, 20)[..|old(Contents())|];
        Patch(hmac(key, text));
      }
    }

    method AddFingerprint()
      requires Valid() && stream.buffer.size >= HEADER_SIZE
      modifies stream, stream.buffer, stream.buffer.data
      ensures Valid() && Kept() && Contents() == SealFingerprint(old(Contents()))
    {
      hide Extend, FingerprintOf;
      AppendBlank(FINGERPRINT, 4);
      var text := AllBut(8);
      var f := ComputeFingerprint(text);
      Patch(f);
    }
  }

  /** Two zero bytes, hundreds, remainder, reason. */
  function ErrorValue(number: nat, reason: seq<Byte>): (v: seq<Byte>)
    requires number <= 600
    ensures |v| == 4 + |reason|
  {
    [0, 0, number / 100, number % 100] + reason
  }

  function HeaderSize(legacy: bool, size: nat): (n: nat)
    ensures n < 0x1_0000
  {
    (if legacy then size + Pad(size) else size) % 0x1_0000
  }

  lemma AttributeBytes(legacy: bool, kind: nat, value: seq<Byte>)
    requires kind < 0x1_0000 && |value| <= MAX_ATTRIBUTE_SIZE
    ensures var r := ToRecord(legacy, Attribute(kind, value));
            && RecordOk(r)
            && RecordBytes(r) == (PutU16(kind) + PutU16(HeaderSize(legacy, |value|))) + (value + Blank(Pad(|value|)))
  {
    hide PutU16, Blank;
    var r := ToRecord(legacy, Attribute(kind, value));
    assert r.value + r.padding == value + Blank(Pad(|value|));
    assert |r.value| == HeaderSize(legacy, |value|);
    assert RecordBytes(r) == (PutU16(r.kind) + PutU16(|r.value|)) + (r.value + r.padding);
  }
}

/** Socket addresses and the attributes that carry them (sections 15.1 and 15.2 of RFC 5389). */
module Addresses {
  import opened Bits
  import opened Options
  import opened Wire
  import opened Incremental
  import Sealing

  /** Port and IP address in network byte order. */
  datatype Address = Address(v6: bool, port: seq<Byte>, ip: seq<Byte>)

  predicate AddressOk(a: Address)
  {
    |a.port| == 2 && |a.ip| == if a.v6 then 16 else 4
  }

  const ZERO_ADDRESS: Address := Address(false, [0, 0], [0, 0, 0, 0])

  function Port(a: Address): (n: nat)
    requires AddressOk(a)
    ensures n < 0x1_0000
  {
    GetU16(a.port, 0)
  }

  function SetPort(a: Address, port: nat): (r: Address)
    requires AddressOk(a) && port < 0x1_0000
    ensures AddressOk(r) && Port(r) == port && r.ip == a.ip && r.v6 == a.v6
  {
    a.(port := PutU16(port))
  }

  predicate IsIPZero(a: Address)
  {
    forall i :: 0 <= i < |a.ip| ==> a.ip[i] == 0
  }

  predicate SameIPAndPort(a: Address, b: Address)
    requires AddressOk(a) && AddressOk(b)
  {
    a.v6 == b.v6 && a.ip == b.ip && Port(a) == Port(b)
  }

  lemma SameIsEqual(a: Address, b: Address)
    requires AddressOk(a) && AddressOk(b)
    ensures SameIPAndPort(a, b) <==> a == b
  {
  }

  // ---- The address mask ----

  function XorBytes(b: seq<Byte>, mask: seq<Byte>): (r: seq<Byte>)
    requires |b| <= |mask|
    ensures |r| == |b|
  {
    seq(|b|, i requires 0 <= i < |b| => XorByte(b[i], mask[i]))
  }

  lemma XorBytesTwice(b: seq<Byte>, mask: seq<Byte>)
    requires |b| <= |mask|
    ensures XorBytes(XorBytes(b, mask), mask) == b
  {
    hide XorByte;
    forall i | 0 <= i < |b| ensures XorBytes(XorBytes(b, mask), mask)[i] == b[i] {
      XorByteTwice(b[i], mask[i]);
    }
  }

  function Masked(a: Address, tid: seq<Byte>): (r: Address)
    requires AddressOk(a) && |tid| == 16
    ensures AddressOk(r)
  {
    Address(a.v6, XorBytes(a.port, tid), XorBytes(a.ip, tid))
  }

  /** Bit `k` of byte `i` is one in exactly one of the two. */
  ghost predicate FlippedAt(x: seq<Byte>, y: seq<Byte>, mask: seq<Byte>, i: nat, k: nat)
    requires i < |x| == |y| && i < |mask|
  {
    BitAt(y[i], k) <==> BitAt(x[i], k) != BitAt(mask[i], k)
  }

  /** Masking flips, in the port and in the IP, exactly the bits that are set in the same byte of the transaction
      id, which begins with the cookie. */
  lemma MaskFlips(a: Address, tid: seq<Byte>)
    requires AddressOk(a) && |tid| == 16
    ensures Masked(a, tid).v6 == a.v6
    ensures forall i, k :: 0 <= i < 2 && 0 <= k < 8 ==> FlippedAt(a.port, Masked(a, tid).port, tid, i, k)
    ensures forall i, k :: 0 <= i < |a.ip| && 0 <= k < 8 ==> FlippedAt(a.ip, Masked(a, tid).ip, tid, i, k)
  {
    hide XorByte, BitAt;
    forall i, k | 0 <= i < 2 && 0 <= k < 8 ensures FlippedAt(a.port, Masked(a, tid).port, tid, i, k) {
      XorByteBits(a.port[i], tid[i], k);
    }
    forall i, k | 0 <= i < |a.ip| && 0 <= k < 8 ensures FlippedAt(a.ip, Masked(a, tid).ip, tid, i, k) {
      XorByteBits(a.ip[i], tid[i], k);
    }
  }

  /** The XOR-MAPPED-ADDRESS of section 2.2 of RFC 5769: 192.0.2.1, port 32853. */
  lemma SampleMask(tid: seq<Byte>)
    requires |tid| == 16 && tid[..4] == COOKIE
    ensures AddressValue(Masked(Address(false, [0x80, 0x55], [192, 0, 2, 1]), tid))
            == [0, 1, 0xA1, 0x47, 0xE1, 0x12, 0xA6, 0x43]
  {
    hide XorByte, BitAt;
    MaskByte(0x80, 0x21, 0xA1);
    MaskByte(0x55, 0x12, 0x47);
    MaskByte(192, 0x21, 0xE1);
    MaskByte(0, 0x12, 0x12);
    MaskByte(2, 0xA4, 0xA6);
    MaskByte(1, 0x42, 0x43);
    assert tid[0] == tid[..4][0] && tid[1] == tid[..4][1] && tid[2] == tid[..4][2] && tid[3] == tid[..4][3];
  }

  /** Masking twice with one transaction id gives the address back. */
  lemma MaskedTwice(a: Address, tid: seq<Byte>)
    requires AddressOk(a) && |tid| == 16
    ensures Masked(Masked(a, tid), tid) == a
  {
    hide XorBytes;
    XorBytesTwice(a.port, tid);
    XorBytesTwice(a.ip, tid);
  }

  /** The mask applied in place to the bytes of an address. */
  method ApplyStunXorMap(port: array<Byte>, ip: array<Byte>, tid: seq<Byte>)
    requires port.Length == 2 && ip.Length <= 16 && |tid| == 16 && port != ip
    modifies port, ip
    ensures port[..] == XorBytes(old(port[..]), tid) && ip[..] == XorBytes(old(ip[..]), tid)
  {
    hide XorByte;
    port[0] := XorByte(port[0], tid[0]);
    port[1] := XorByte(port[1], tid[1]);
    for i := 0 to ip.Length
      invariant port[..] == XorBytes(old(port[..]), tid)
      invariant forall j :: 0 <= j < i ==> ip[j] == XorByte(old(ip[j]), tid[j])
      invariant forall j :: i <= j < ip.Length ==> ip[j] == old(ip[j])
    {
      ip[i] := XorByte(ip[i], tid[i]);
    }
  }

  // ---- Address attributes ----

  function AddressValue(a: Address): (v: seq<Byte>)
    requires AddressOk(a)
    ensures |v| == if a.v6 then 20 else 8
  {
    [0, if a.v6 then 2 else 1] + a.port + a.ip
  }

  /** The first byte is skipped; any family but IPv4 is taken for IPv6. */
  function ReadAddress(v: seq<Byte>): (r: Option<Address>)
    ensures r.Some? ==> AddressOk(r.value)
  {
    if |v| < 4 then None
    else if v[1] == 1 then if |v| < 8 then None else Some(Address(false, v[2..4], v[4..8]))
    else if |v| < 20 then None else Some(Address(true, v[2..4], v[4..20]))
  }

  lemma AddressRoundTrip(a: Address)
    requires AddressOk(a)
    ensures ReadAddress(AddressValue(a)) == Some(a)
  {
    var v := AddressValue(a);
    assert v[2..4] == a.port && v[4..] == a.ip;
    assert v[4..] == if a.v6 then v[4..20] else v[4..8];
  }

  // ---- Finding attributes in an accepted message ----

  function ValueOf(b: seq<Byte>, a: Located): seq<Byte>
    requires a.offset + a.size <= |b|
  {
    b[a.offset..a.offset + a.size]
  }

  /** The value a lookup by kind gives: the last attribute of that kind. */
  function Find(b: seq<Byte>, attributes: seq<Located>, kind: nat): Option<seq<Byte>>
    requires Sealing.Usable(b, attributes)
  {
    var i := Sealing.LastIndex(attributes, kind);
    if i == -1 then None else
      assert Sealing.Placed(b, attributes[i]);
      Some(ValueOf(b, attributes[i]))
  }

  function FindAddress(b: seq<Byte>, attributes: seq<Located>, kind: nat): (r: Option<Address>)
    requires Sealing.Usable(b, attributes)
    ensures r.Some? ==> AddressOk(r.value)
  {
    var v := Find(b, attributes, kind);
    if v.None? then None else ReadAddress(v.value)
  }

  const MAPPED_ADDRESS: nat := 0x0001
  const CHANGE_REQUEST: nat := 0x0003
  const SOURCE_ADDRESS: nat := 0x0004
  const CHANGED_ADDRESS: nat := 0x0005
  const XOR_MAPPED_ADDRESS: nat := 0x0020
  const XOR_MAPPED_ADDRESS_OPTIONAL: nat := 0x8020
  const RESPONSE_ORIGIN: nat := 0x802b
  const OTHER_ADDRESS: nat := 0x802c

  function FirstOf(a: Option<Address>, b: Option<Address>): Option<Address>
  {
    if a.Some? then a else b
  }

  function GetXorMapped(b: seq<Byte>, attributes: seq<Located>, tid: seq<Byte>): (r: Option<Address>)
    requires Sealing.Usable(b, attributes) && |tid| == 16
    ensures r.Some? ==> AddressOk(r.value)
  {
    var a := FirstOf(FindAddress(b, attributes, XOR_MAPPED_ADDRESS),
                     FindAddress(b, attributes, XOR_MAPPED_ADDRESS_OPTIONAL));
    if a.None? then None else Some(Masked(a.value, tid))
  }

  function GetMapped(b: seq<Byte>, attributes: seq<Located>): (r: Option<Address>)
    requires Sealing.Usable(b, attributes)
    ensures r.Some? ==> AddressOk(r.value)
  {
    FindAddress(b, attributes, MAPPED_ADDRESS)
  }

  function GetOther(b: seq<Byte>, attributes: seq<Located>): (r: Option<Address>)
    requires Sealing.Usable(b, attributes)
    ensures r.Some? ==> AddressOk(r.value)
  {
    FirstOf(FindAddress(b, attributes, OTHER_ADDRESS), FindAddress(b, attributes, CHANGED_ADDRESS))
  }

}

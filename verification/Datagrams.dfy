/** The datagrams of the file transfer in client/clientmain.cpp. */
module Datagrams {
  import opened Bits

  /** The field a file's name travels in: the bytes up to the first zero. */
  type Name = s: seq<Byte> | |s| == 50 witness seq(50, _ => 0)

  function NameIn(field: seq<Byte>): (s: seq<Byte>)
    ensures |s| <= |field| && 0 !in s && s == field[..|s|] && (|s| < |field| ==> field[|s|] == 0)
  {
    if field == [] || field[0] == 0 then [] else [field[0]] + NameIn(field[1..])
  }

  datatype Message =
    | FileName(name: Name)
    | FileDesc(count: int)
    | FileDescApk
    | Sector(len: int, index: int, data: seq<Byte>)
    | SectorApk(index: int)
    | Unrelated

  function Ascii(s: string): (b: seq<Byte>)
    requires forall i :: 0 <= i < |s| ==> s[i] < 128 as char
    ensures |b| == |s|
  {
    seq(|s|, i requires 0 <= i < |s| => s[i] as int)
  }

  const REQUEST: seq<Byte> := Ascii("request")
  const RESPOND: seq<Byte> := Ascii("respond")
  const DATA: seq<Byte> := Ascii("data")
  const APK: seq<Byte> := Ascii("apk")
  const FILE_NAME: seq<Byte> := Ascii("fileName")
  const FILE_DESC: seq<Byte> := Ascii("fileDesc")
  const SECTOR: seq<Byte> := Ascii("sector")

  /** A header field that holds the word as a C string; what follows the terminator is unspecified. */
  predicate Names(field: seq<Byte>, word: seq<Byte>)
  {
    |word| < |field| && field[..|word|] == word && field[|word|] == 0
  }

  predicate IsInt(n: int)
  {
    -0x8000_0000 <= n < 0x8000_0000
  }

  /** A 32-bit integer in little-endian memory order, two's complement. */
  function PutInt(n: int): (b: seq<Byte>)
    requires IsInt(n)
    ensures |b| == 4
  {
    var u := if n < 0 then n + 0x1_0000_0000 else n;
    [u % 256, u / 256 % 256, u / 65536 % 256, u / 16777216]
  }

  function GetInt(b: seq<Byte>): int
    requires |b| == 4
  {
    var n: int := (b[0] as int) + 256 * (b[1] as int) + 65536 * (b[2] as int) + 16777216 * (b[3] as int);
    if n < 0x8000_0000 then n else n - 0x1_0000_0000
  }

  /** The lowest byte comes first, as a little-endian machine keeps its integers. */
  lemma IntRoundTrip(n: int)
    requires IsInt(n)
    ensures GetInt(PutInt(n)) == n
    ensures var b := PutInt(n);
            (b[0] as int) + 256 * (b[1] as int) + 65536 * (b[2] as int) + 16777216 * (b[3] as int)
            == if n < 0 then n + 0x1_0000_0000 else n
  {
    var u := if n < 0 then n + 0x1_0000_0000 else n;
    assert u / 256 == (u / 65536) * 256 + u / 256 % 256;
    assert u / 65536 == (u / 16777216) * 256 + u / 65536 % 256;
  }

  /** The three words a datagram begins with. */
  predicate Fields(d: seq<Byte>, a: seq<Byte>, b: seq<Byte>, c: seq<Byte>)
  {
    |d| >= 30 && Names(d[..10], a) && Names(d[10..20], b) && Names(d[20..30], c)
  }

  /** How the receive loop classifies a datagram. */
  function Decode(d: seq<Byte>): Message
  {
    if Fields(d, REQUEST, DATA, FILE_NAME) then if |d| < 80 then Unrelated else FileName(d[30..80])
    else if Fields(d, RESPOND, DATA, FILE_DESC) then if |d| < 34 then Unrelated else FileDesc(GetInt(d[30..34]))
    else if Fields(d, RESPOND, APK, FILE_DESC) then FileDescApk
    else if Fields(d, RESPOND, DATA, SECTOR) then DecodeSector(d)
    else if Fields(d, RESPOND, APK, SECTOR) then if |d| < 34 then Unrelated else SectorApk(GetInt(d[30..34]))
    else Unrelated
  }

  function DecodeSector(d: seq<Byte>): Message
  {
    if |d| < 38 then Unrelated
    else
      var len := GetInt(d[30..34]);
      if 0 <= len <= |d| - 38 then Sector(len, GetInt(d[34..38]), d[38..38 + len]) else Unrelated
  }

  /** Some datagram the code may emit for a message: the field tails are unspecified. */
  ghost predicate Encodes(d: seq<Byte>, m: Message)
  {
    match m
    case FileName(name) => |d| == 80 && Fields(d, REQUEST, DATA, FILE_NAME) && d[30..] == name
    case FileDesc(n) => IsInt(n) && |d| == 34 && Fields(d, RESPOND, DATA, FILE_DESC) && d[30..] == PutInt(n)
    case FileDescApk => |d| == 30 && Fields(d, RESPOND, APK, FILE_DESC)
    case Sector(len, index, data) =>
      && IsInt(len) && IsInt(index) && len == |data|
      && |d| == 38 + len && Fields(d, RESPOND, DATA, SECTOR)
      && d[30..34] == PutInt(len) && d[34..38] == PutInt(index) && d[38..] == data
    case SectorApk(index) => IsInt(index) && |d| == 34 && Fields(d, RESPOND, APK, SECTOR) && d[30..] == PutInt(index)
    case Unrelated => false
  }

  lemma WordsDiffer()
    ensures REQUEST[2] == 'q' as int && RESPOND[2] == 's' as int && |REQUEST| == |RESPOND| == 7
    ensures DATA[0] == 'd' as int && APK[0] == 'a' as int && |DATA| == 4 && |APK| == 3
    ensures FILE_NAME[4] == 'N' as int && FILE_DESC[4] == 'D' as int && SECTOR[0] == 's' as int
    ensures FILE_DESC[0] == 'f' as int == FILE_NAME[0]
    ensures |FILE_NAME| == |FILE_DESC| == 8 && |SECTOR| == 6
  {
  }

  /** Fields that name one word name no other. */
  lemma NamesExactly(field: seq<Byte>, word: seq<Byte>, other: seq<Byte>, i: nat)
    requires Names(field, word) && i < |word| && i < |other| && word[i] != other[i]
    ensures !Names(field, other)
  {
  }

  /** What the code emits for a message is read back as that message, whatever the field tails hold. */
  lemma DecodeEncodes(d: seq<Byte>, m: Message)
    requires Encodes(d, m)
    ensures Decode(d) == m
  {
    hide Ascii, PutInt, GetInt, Names;
    WordsDiffer();
    if !m.FileName? {
      NamesExactly(d[..10], RESPOND, REQUEST, 2);
    }
    match m
    case FileName(name) => assert d[30..80] == d[30..];
    case FileDesc(n) =>
      IntRoundTrip(n);
      assert d[30..34] == d[30..];
    case FileDescApk => NamesExactly(d[10..20], APK, DATA, 0);
    case Sector(len, index, data) =>
      NamesExactly(d[10..20], DATA, APK, 0);
      NamesExactly(d[20..30], SECTOR, FILE_DESC, 0);
      IntRoundTrip(len);
      IntRoundTrip(index);
    case SectorApk(index) =>
      NamesExactly(d[10..20], APK, DATA, 0);
      NamesExactly(d[20..30], SECTOR, FILE_DESC, 0);
      IntRoundTrip(index);
      assert d[30..34] == d[30..];
  }

  // ---- One datagram for every message ----

  function Field(word: seq<Byte>): (f: seq<Byte>)
    requires |word| < 10
    ensures |f| == 10 && Names(f, word)
  {
    word + seq(10 - |word|, _ => 0)
  }

  function Header(a: seq<Byte>, b: seq<Byte>, c: seq<Byte>): (h: seq<Byte>)
    requires |a| < 10 && |b| < 10 && |c| < 10
    ensures |h| == 30
  {
    Field(a) + Field(b) + Field(c)
  }

  lemma HeaderFields(a: seq<Byte>, b: seq<Byte>, c: seq<Byte>, rest: seq<Byte>)
    requires |a| < 10 && |b| < 10 && |c| < 10
    ensures Fields(Header(a, b, c) + rest, a, b, c) && (Header(a, b, c) + rest)[30..] == rest
  {
    var d := Header(a, b, c) + rest;
    assert d[..10] == Field(a) && d[10..20] == Field(b) && d[20..30] == Field(c);
  }

  predicate Sendable(m: Message)
  {
    match m
    case FileName(_) => true
    case FileDesc(n) => IsInt(n)
    case FileDescApk => true
    case Sector(len, index, data) => IsInt(index) && IsInt(len) && len == |data|
    case SectorApk(index) => IsInt(index)
    case Unrelated => false
  }

  /** The datagram of a message with zeroed field tails. */
  function Encode(m: Message): (d: seq<Byte>)
    requires Sendable(m)
  {
    match m
    case FileName(name) => Header(REQUEST, DATA, FILE_NAME) + name
    case FileDesc(n) => Header(RESPOND, DATA, FILE_DESC) + PutInt(n)
    case FileDescApk => Header(RESPOND, APK, FILE_DESC) + []
    case Sector(len, index, data) => Header(RESPOND, DATA, SECTOR) + (PutInt(len) + PutInt(index) + data)
    case SectorApk(index) => Header(RESPOND, APK, SECTOR) + PutInt(index)
  }

  lemma EncodeOk(m: Message)
    requires Sendable(m)
    ensures Encodes(Encode(m), m)
  {
    hide Ascii, Fields, Header, PutInt;
    WordsDiffer();
    match m
    case FileName(name) => HeaderFields(REQUEST, DATA, FILE_NAME, name);
    case FileDesc(n) => HeaderFields(RESPOND, DATA, FILE_DESC, PutInt(n));
    case FileDescApk => HeaderFields(RESPOND, APK, FILE_DESC, []);
    case Sector(len, index, data) =>
      var rest := PutInt(len) + PutInt(index) + data;
      HeaderFields(RESPOND, DATA, SECTOR, rest);
      var d := Encode(m);
      assert d[30..34] == d[30..][..4] == PutInt(len);
      assert d[34..38] == d[30..][4..8] == PutInt(index);
      assert d[38..] == d[30..][8..] == data;
    case SectorApk(index) => HeaderFields(RESPOND, APK, SECTOR, PutInt(index));
  }
}

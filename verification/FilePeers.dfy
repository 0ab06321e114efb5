/** The two peers of the file transfer as they run: on the bytes of each datagram. */
module FilePeers {
  import opened Bits
  import opened Options
  import opened FileBlocks
  import opened Datagrams
  import opened FileTransfer

  // ---- Taking a datagram apart ----

  /** Compares a ten-byte header field with a word, as strcmp does. */
  method FieldIs(buff: array<Byte>, at: nat, word: seq<Byte>) returns (same: bool)
    requires at + 10 <= buff.Length && |word| < 10
    ensures same <==> Names(buff[at..at + 10], word)
  {
    var i := 0;
    while i < |word| && buff[at + i] == word[i]
      invariant i <= |word| && buff[at..at + i] == word[..i]
    {
      i := i + 1;
    }
    same := i == |word| && buff[at + |word|] == 0;
    assert buff[at..at + 10][..|word|] == buff[at..at + |word|];
    assert word[..|word|] == word;
    if i < |word| {
      assert buff[at..at + |word|][i] != word[i];
    }
  }

  method HeadIs(buff: array<Byte>, size: nat, a: seq<Byte>, b: seq<Byte>, c: seq<Byte>) returns (same: bool)
    requires 30 <= size <= buff.Length && |a| < 10 && |b| < 10 && |c| < 10
    ensures same <==> Fields(buff[..size], a, b, c)
  {
    hide Names;
    same := FieldIs(buff, 0, a);
    if same {
      same := FieldIs(buff, 10, b);
    }
    if same {
      same := FieldIs(buff, 20, c);
    }
    assert buff[..size][..10] == buff[0..10];
    assert buff[..size][10..20] == buff[10..20];
    assert buff[..size][20..30] == buff[20..30];
  }

  method ReadInt(buff: array<Byte>, at: nat) returns (n: int)
    requires at + 4 <= buff.Length
    ensures n == GetInt(buff[at..at + 4])
  {
    n := buff[at] as int + 256 * (buff[at + 1] as int) + 65536 * (buff[at + 2] as int)
      + 16777216 * (buff[at + 3] as int);
    if n >= 0x8000_0000 {
      n := n - 0x1_0000_0000;
    }
  }

  /** The chain of comparisons of the receive loop. */
  method Classify(buff: array<Byte>, size: nat) returns (m: Message)
    requires size <= buff.Length
    ensures m == Decode(buff[..size])
  {
    hide Fields, GetInt, Ascii, DecodeSector;
    WordsDiffer();
    m := Unrelated;
    if size < 30 {
      NeedsHead(buff[..size]);
      return;
    }
    var same := HeadIs(buff, size, REQUEST, DATA, FILE_NAME);
    if same {
      m := ReadName(buff, size);
      return;
    }
    same := HeadIs(buff, size, RESPOND, DATA, FILE_DESC);
    if same {
      m := WithInt(buff, size, true);
      return;
    }
    same := HeadIs(buff, size, RESPOND, APK, FILE_DESC);
    if same {
      return FileDescApk;
    }
    same := HeadIs(buff, size, RESPOND, DATA, SECTOR);
    if same {
      m := ReadSector(buff, size);
      return;
    }
    same := HeadIs(buff, size, RESPOND, APK, SECTOR);
    if same {
      m := WithInt(buff, size, false);
    }
  }

  lemma NeedsHead(d: seq<Byte>)
    requires |d| < 30
    ensures Decode(d) == Unrelated
  {
  }

  method ReadName(buff: array<Byte>, size: nat) returns (m: Message)
    requires 30 <= size <= buff.Length
    ensures m == if size < 80 then Unrelated else FileName(buff[..size][30..80])
  {
    if size < 80 {
      return Unrelated;
    }
    assert buff[..size][30..80] == buff[30..80];
    m := FileName(buff[30..80]);
  }

  /** The description and the block acknowledgement carry one number. */
  method WithInt(buff: array<Byte>, size: nat, desc: bool) returns (m: Message)
    requires 30 <= size <= buff.Length
    ensures m == if size < 34 then Unrelated
                 else if desc then FileDesc(GetInt(buff[..size][30..34])) else SectorApk(GetInt(buff[..size][30..34]))
  {
    hide GetInt;
    if size < 34 {
      return Unrelated;
    }
    var n := ReadInt(buff, 30);
    assert buff[..size][30..34] == buff[30..34];
    m := if desc then FileDesc(n) else SectorApk(n);
  }

  method ReadSector(buff: array<Byte>, size: nat) returns (m: Message)
    requires 30 <= size <= buff.Length
    ensures m == DecodeSector(buff[..size])
  {
    hide GetInt;
    if size < 38 {
      return Unrelated;
    }
    var len := ReadInt(buff, 30);
    var index := ReadInt(buff, 34);
    var d := buff[..size];
    assert d[30..34] == buff[30..34] && d[34..38] == buff[34..38];
    m := if 0 <= len <= size - 38 then Sector(len, index, d[38..38 + len]) else Unrelated;
  }

  // ---- Putting one together ----

  /** memcpy or strcpy into a buffer. */
  method Store(buff: array<Byte>, at: nat, data: seq<Byte>)
    requires at + |data| <= buff.Length
    modifies buff
    ensures buff[..] == old(buff[..at]) + data + old(buff[at + |data|..])
  {
    var i := 0;
    while i < |data|
      invariant i <= |data|
      invariant buff[..] == old(buff[..at]) + data[..i] + old(buff[at + i..])
    {
      buff[at + i] := data[i];
      i := i + 1;
    }
    assert data[..|data|] == data;
  }

  /** The three words, each with its terminator; the bytes after it are what the buffer held. */
  method StoreHead(buff: array<Byte>, a: seq<Byte>, b: seq<Byte>, c: seq<Byte>)
    requires buff.Length >= 30 && |a| < 10 && |b| < 10 && |c| < 10
    modifies buff
    ensures Fields(buff[..], a, b, c) && buff[30..] == old(buff[30..])
  {
    hide Names;
    Store(buff, 0, a + [0]);
    ghost var d := buff[..];
    assert d[30..] == old(buff[30..]);
    Store(buff, 10, b + [0]);
    ghost var e := buff[..];
    Store(buff, 20, c + [0]);
    HeadStored(d, e, buff[..], a, b, c);
    assert buff[30..] == buff[..][30..];
  }

  lemma HeadStored(d: seq<Byte>, e: seq<Byte>, f: seq<Byte>, a: seq<Byte>, b: seq<Byte>, c: seq<Byte>)
    requires |d| == |e| == |f| >= 30 && |a| < 10 && |b| < 10 && |c| < 10
    requires d[..|a| + 1] == a + [0] && e == d[..10] + (b + [0]) + d[11 + |b|..]
    requires f == e[..20] + (c + [0]) + e[21 + |c|..]
    ensures Fields(f, a, b, c) && f[30..] == d[30..]
  {
    assert f[..10] == d[..10];
    Named(d, 0, a);
    assert f[10..20] == e[10..20];
    assert e[10..11 + |b|] == b + [0];
    Named(e, 10, b);
    assert f[20..21 + |c|] == c + [0];
    Named(f, 20, c);
  }

  lemma Named(d: seq<Byte>, at: nat, word: seq<Byte>)
    requires at + 10 <= |d| && |word| < 10 && d[at..at + |word| + 1] == word + [0]
    ensures Names(d[at..at + 10], word)
  {
    var field := d[at..at + 10];
    assert field[..|word|] == d[at..at + |word| + 1][..|word|];
    assert field[|word|] == d[at..at + |word| + 1][|word|];
  }

  method Compose(a: seq<Byte>, b: seq<Byte>, c: seq<Byte>, rest: seq<Byte>) returns (d: seq<Byte>)
    requires |a| < 10 && |b| < 10 && |c| < 10
    ensures Fields(d, a, b, c) && |d| == 30 + |rest| && d[30..] == rest
  {
    hide Fields;
    var buff := new Byte[30 + |rest|];
    Store(buff, 30, rest);
    assert buff[30..] == rest;
    StoreHead(buff, a, b, c);
    d := buff[..];
  }

  // ---- The receiver ----

  class FileReceiver {
    var asked: bool
    var blockCount: int
    var writePos: int
    var written: seq<Byte>
    var completions: nat

    ghost function Model(): Receiver
      reads this
    {
      Receiver(asked, blockCount, writePos, written, completions)
    }

    constructor ()
      ensures Model() == Receiver(false, 0, 0, [], 0)
    {
      asked, blockCount, writePos, written, completions := false, 0, 0, [], 0;
    }

    /** The file is asked for when the connection comes up, and never again. */
    method OnConnected(name: Name) returns (out: Option<seq<Byte>>)
      modifies this
      ensures out.Some? <==> !old(asked)
      ensures asked && Model() == old(Model()).(asked := true)
      ensures out.Some? ==> Encodes(out.value, FileName(name)) && Decode(out.value) == FileName(name)
    {
      out := None;
      if !asked {
        asked := true;
        WordsDiffer();
        var d := Compose(REQUEST, DATA, FILE_NAME, name);
        DecodeEncodes(d, FileName(name));
        out := Some(d);
      }
    }

    /** One datagram: the answer is one of the datagrams that encode the model's reply. */
    method OnDatagram(buff: array<Byte>, size: nat) returns (out: seq<Byte>)
      requires size <= buff.Length
      modifies this
      ensures Model() == ReceiverReceive(old(Model()), Decode(buff[..size])).0
      ensures Carries(out, ReceiverReceive(old(Model()), Decode(buff[..size])).1)
    {
      hide Decode, Fields, Ascii, PutInt;
      WordsDiffer();
      out := [];
      var m := Classify(buff, size);
      match m {
        case FileDesc(count) =>
          blockCount := count;
          out := Compose(RESPOND, APK, FILE_DESC, []);
        case Sector(len, index, data) =>
          if writePos == index {
            written := written + data;
            writePos := writePos + 1;
          }
          SectorIsInt(buff[..size]);
          out := Compose(RESPOND, APK, SECTOR, PutInt(index));
          if index == blockCount - 1 {
            completions := completions + 1;
          }
        case _ =>
      }
    }
  }

  lemma SectorIsInt(d: seq<Byte>)
    requires Decode(d).Sector?
    ensures IsInt(Decode(d).index)
  {
    hide Fields;
  }

  // ---- The sender ----

  class FileSender {
    const disk: Disk
    ghost var shared: seq<Byte>
    var buffer: SharedFileBuffer?
    var pos: int
    var thread: Thread

    ghost function Model(): Sender
      reads this, buffer
    {
      Sender(buffer != null, if buffer == null then [] else buffer.blocks, pos, thread)
    }

    /** An opened buffer holds the blocks of the file of the shared name. */
    ghost predicate Valid()
      reads this, buffer
    {
      && (forall name :: |Split(disk(name), 0)| < 0x8000_0000)
      && (buffer != null ==> buffer.blocks == Split(disk(shared), 0))
    }

    constructor (disk: Disk)
      requires forall name :: |Split(disk(name), 0)| < 0x8000_0000
      ensures Valid() && Model() == Sender(false, [], -1, NotStarted) && this.disk == disk
    {
      this.disk := disk;
      shared := [];
      buffer, pos, thread := null, -1, NotStarted;
    }

    /** The file is opened by the name in the request, the first time. */
    method Load(name: Name)
      requires Valid()
      modifies this`buffer, this`shared
      ensures Valid() && buffer != null
      ensures old(buffer) != null ==> buffer == old(buffer) && shared == old(shared)
      ensures old(buffer) == null ==> fresh(buffer) && shared == NameIn(name)
    {
      if buffer == null {
        var b := new SharedFileBuffer();
        b.LoadFileToBuffer(disk(NameIn(name)));
        buffer, shared := b, NameIn(name);
      }
    }

    method OnDatagram(buff: array<Byte>, size: nat) returns (out: seq<Byte>)
      requires Valid() && size <= buff.Length
      modifies this
      ensures Valid() && Model() == SenderReceive(old(Model()), disk, Decode(buff[..size])).0
      ensures Carries(out, SenderReceive(old(Model()), disk, Decode(buff[..size])).1)
    {
      hide Decode, Fields, Ascii, PutInt, Split;
      WordsDiffer();
      out := [];
      var m := Classify(buff, size);
      match m {
        case FileName(name) =>
          Load(name);
          if |buffer.blocks| > 0 {
            out := Compose(RESPOND, DATA, FILE_DESC, PutInt(|buffer.blocks|));
          }
        case FileDescApk =>
          var firstRun := pos == -1;
          if firstRun {
            pos := 0;
          }
          if firstRun && buffer != null && pos < |buffer.blocks| {
            thread := Reading;
          }
        case SectorApk(index) =>
          if pos == index {
            pos := pos + 1;
          }
        case _ =>
      }
    }

    /** The block the sending thread saw the position of, as a datagram. */
    method SendSectorData() returns (out: seq<Byte>)
      requires Valid() && thread.Sending? && buffer != null && 0 <= thread.position < |buffer.blocks|
      modifies this
      ensures Valid() && Model() == ThreadSend(old(Model())).0 && Carries(out, ThreadSend(old(Model())).1)
      ensures Decode(out) == Sector(|out| - 38, old(thread.position), Split(disk(shared), 0)[old(thread.position)].data)
    {
      SplitShape(disk(shared), 0, thread.position);
      hide Decode, Fields, Ascii, PutInt, Split;
      WordsDiffer();
      var b := buffer.blocks[thread.position];
      var rest := PutInt(|b.data|) + PutInt(b.index) + b.data;
      out := Compose(RESPOND, DATA, SECTOR, rest);
      assert out[30..34] == rest[..4] && out[34..38] == rest[4..8] && out[38..] == rest[8..];
      DecodeEncodes(out, Sector(|b.data|, b.index, b.data));
      thread := Reading;
    }
  }
}

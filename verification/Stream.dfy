/** CBuffer and CDataStream: a growable byte buffer with a read/write position. */
module Stream {
  import opened Bits

  /** `s` with `d` written over it from `p` on, growing at the end if need be. */
  function Overwrite(s: seq<Byte>, p: nat, d: seq<Byte>): (r: seq<Byte>)
    requires p <= |s|
    ensures |r| == if p + |d| > |s| then p + |d| else |s|
  {
    s[..p] + d + if p + |d| < |s| then s[p + |d|..] else []
  }

  /** Writing at the end appends. */
  lemma OverwriteEnd(s: seq<Byte>, d: seq<Byte>)
    ensures Overwrite(s, |s|, d) == s + d
  {
  }

  class Buffer {
    const data: array<Byte>
    var size: nat

    ghost predicate Valid()
      reads this
    {
      size <= data.Length
    }

    constructor (capacity: nat)
      ensures Valid() && size == capacity == data.Length && fresh(data)
    {
      data := new Byte[capacity];
      size := capacity;
    }

    /** The source accepts any size here; callers must stay within the allocation. */
    method SetSize(n: nat)
      requires n <= data.Length
      modifies this
      ensures Valid() && size == n
    {
      size := n;
    }
  }

  /** A stream without a buffer is one whose buffer has nothing allocated. */
  class DataStream {
    var buffer: Buffer
    var pos: nat
    var noGrow: bool

    ghost predicate Valid()
      reads this, buffer
    {
      buffer.Valid() && pos <= buffer.size
    }

    ghost function Contents(): (s: seq<Byte>)
      reads this, buffer, buffer.data
      requires Valid()
    {
      buffer.data[..buffer.size]
    }

    constructor ()
      ensures Valid() && fresh(buffer) && fresh(buffer.data) && Contents() == [] && pos == 0 && !noGrow
    {
      buffer := new Buffer(0);
      pos, noGrow := 0, false;
    }

    /** Uses the caller's buffer itself; for writing, what it held is dropped. */
    method Attach(b: Buffer, forWriting: bool)
      requires b.Valid()
      modifies this, b
      ensures Valid() && buffer == b && pos == 0 && !noGrow
      ensures Contents() == if forWriting then [] else old(b.data[..b.size])
    {
      buffer, pos, noGrow := b, 0, false;
      if forWriting {
        b.SetSize(0);
      }
    }

    /** Makes room for `n` bytes, doubling at least; a large enough buffer is kept as it is. */
    method Grow(n: nat) returns (ok: bool)
      requires Valid()
      modifies `buffer
      ensures Valid() && pos == old(pos) && Contents() == old(Contents())
      ensures ok <==> n <= old(buffer.data.Length) || !noGrow
      ensures ok ==> n <= buffer.data.Length
      ensures n <= old(buffer.data.Length) || !ok ==> buffer == old(buffer)
      ensures buffer == old(buffer) || (fresh(buffer) && fresh(buffer.data))
    {
      var capacity := buffer.data.Length;
      if n <= capacity {
        return true;
      }
      if noGrow {
        return false;
      }
      var b := new Buffer(if n > capacity * 2 then n else capacity * 2);
      b.SetSize(buffer.size);
      for i := 0 to buffer.size
        invariant b.size == buffer.size && b.data[..i] == buffer.data[..i]
        modifies b.data
      {
        b.data[i] := buffer.data[i];
      }
      buffer := b;
      return true;
    }

    /** Fails on an empty write or when the buffer may not grow. */
    method Write(d: seq<Byte>) returns (ok: bool)
      requires Valid()
      modifies this, buffer, buffer.data
      ensures Valid() && noGrow == old(noGrow)
      ensures ok <==> d != [] && (old(pos) + |d| <= old(buffer.data.Length) || !noGrow)
      ensures ok ==> Contents() == Overwrite(old(Contents()), old(pos), d) && pos == old(pos) + |d|
      ensures !ok ==> Contents() == old(Contents()) && pos == old(pos) && buffer == old(buffer)
      ensures old(pos) + |d| <= old(buffer.data.Length) ==> buffer == old(buffer)
      ensures buffer == old(buffer) || (fresh(buffer) && fresh(buffer.data))
    {
      if d == [] {
        return false;
      }
      ok := Grow(pos + |d|);
      if !ok {
        return;
      }
      CopyIn(d);
      if pos + |d| > buffer.size {
        buffer.SetSize(pos + |d|);
      }
      pos := pos + |d|;
    }

    /** The bytes from the position on are replaced; the allocation beyond the size may be used. */
    method CopyIn(d: seq<Byte>)
      requires Valid() && pos + |d| <= buffer.data.Length
      modifies buffer.data
      ensures buffer.data[..] == old(buffer.data[..pos]) + d + old(buffer.data[pos + |d|..])
    {
      for i := 0 to |d|
        invariant buffer.data[..] == old(buffer.data[..pos]) + d[..i] + old(buffer.data[pos + i..])
      {
        buffer.data[pos + i] := d[i];
        assert d[..i + 1] == d[..i] + [d[i]];
      }
      assert d[..|d|] == d;
    }

    method Read(n: nat) returns (ok: bool, d: seq<Byte>)
      requires Valid()
      modifies `pos
      ensures Valid() && ok == (old(pos) + n <= |Contents()|)
      ensures ok ==> pos == old(pos) + n && d == Contents()[old(pos)..old(pos) + n]
      ensures !ok ==> d == [] && pos == old(pos)
    {
      if pos + n > buffer.size {
        return false, [];
      }
      d := buffer.data[pos..pos + n];
      assert d == Contents()[pos..pos + n];
      pos := pos + n;
      ok := true;
    }

    method SeekDirect(p: int) returns (ok: bool)
      requires Valid()
      modifies `pos
      ensures Valid() && ok == (0 <= p <= |Contents()|)
      ensures pos == if ok then p else old(pos)
    {
      ok := 0 <= p <= buffer.size;
      if ok {
        pos := p;
      }
    }

    method SeekRelative(offset: int) returns (ok: bool)
      requires Valid()
      modifies `pos
      ensures Valid() && ok == (0 <= old(pos) + offset <= |Contents()|)
      ensures pos == if ok then old(pos) + offset else old(pos)
    {
      ok := SeekDirect(pos + offset);
    }
  }
}

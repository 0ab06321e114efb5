/** The computing classes of boost/crc.hpp: the bit-by-bit `crc_basic`, the table-driven
    `crc_optimal` and the augmented-message function, each proved to compute the division of Crc.
    Template parameters are constructor arguments. */
module CrcEngines {
  import opened Bits
  import opened Crc

  /** After i bits: they are mirrored at the top, and the rest has moved down by i. */
  ghost predicate Reflected(word: Word, i: nat, x: Word, reflection: Word)
    requires i <= |word|
  {
    x == Zeros(i) + word[..|word| - i] && reflection == Mirror(word[|word| - i..]) + Zeros(|word| - i)
  }

  lemma ReflectedMore(word: Word, i: nat, x: Word, reflection: Word)
    requires i < |word| && Reflected(word, i, x, reflection)
    ensures Reflected(word, i + 1, [false] + x[..|word| - 1], reflection[i := x[|word| - 1]])
  {
    var n, y, z := |word|, [false] + x[..|word| - 1], reflection[i := x[|word| - 1]];
    assert forall j :: 0 <= j < n ==> y[j] == (Zeros(i + 1) + word[..n - i - 1])[j];
    assert forall j :: 0 <= j < n ==> z[j] == (Mirror(word[n - i - 1..]) + Zeros(n - i - 1))[j];
  }

  lemma ReflectedEnds(word: Word)
    ensures Reflected(word, 0, word, Zeros(|word|))
    ensures forall x, r :: Reflected(word, |word|, x, r) ==> r == Mirror(word)
  {
    assert word[..|word|] == word && word[|word|..] == [] && word[0..] == word;
  }

  /** Bit reversal by moving the lowest bit out and setting its mirror position. */
  method Reflect(word: Word) returns (reflection: Word)
    ensures reflection == Mirror(word)
  {
    var n := |word|;
    var x := word;
    reflection := Zeros(n);
    ReflectedEnds(word);
    hide Reflected, Zeros, Mirror;
    for i := 0 to n
      invariant |x| == |reflection| == n && Reflected(word, i, x, reflection)
      invariant forall j :: i <= j < n ==> !reflection[j]
    {
      ReflectedMore(word, i, x, reflection);
      assert reflection[i := false] == reflection;
      if x[n - 1] {
        reflection := reflection[i := true];
      }
      x := [false] + x[..n - 1];
    }
  }

  lemma DivideOne(p: Word, r: Word, bits: Word, i: nat)
    requires |p| == |r| > 0 && i < |bits|
    ensures Divide(p, r, bits[..i + 1]) == Divide(p, Divide(p, r, bits[..i]), [bits[i]])
  {
    assert bits[..i + 1] == bits[..i] + [bits[i]];
    DivideAppend(p, r, bits[..i], [bits[i]]);
  }

  lemma DivideBit(p: Word, r: Word, bit: bool)
    requires |p| == |r| > 0
    ensures Divide(p, r, [bit]) == Step(p, [r[0] != bit] + r[1..])
  {
    assert [bit][1..] == [];
  }

  class CrcBasic {
    const poly: Word
    const init: Word
    const final: Word
    const reflectIn: bool
    const reflectOut: bool
    var rem: Word

    ghost predicate Valid()
      reads this
    {
      |poly| == |init| == |final| == |rem| > 0
    }

    constructor (poly: Word, init: Word, final: Word, reflectIn: bool, reflectOut: bool)
      requires |poly| == |init| == |final| > 0
      ensures Valid()
      ensures this.poly == poly && this.init == init && this.final == final
      ensures this.reflectIn == reflectIn && this.reflectOut == reflectOut && rem == init
    {
      this.poly, this.init, this.final := poly, init, final;
      this.reflectIn, this.reflectOut := reflectIn, reflectOut;
      rem := init;
    }

    method ProcessBit(bit: bool)
      requires Valid()
      modifies this
      ensures Valid() && rem == Divide(poly, old(rem), [bit])
    {
      DivideBit(poly, rem, bit);
      if bit {
        rem := rem[0 := !rem[0]];
      }
      assert rem == [old(rem)[0] != bit] + old(rem)[1..];
      var doPolyDiv := rem[0];
      rem := rem[1..] + [false];
      if doPolyDiv {
        rem := Xor(rem, poly);
      }
    }

    /** The lowest `count` bits of a byte, highest of them first. */
    method ProcessBits(bits: Word, count: nat)
      requires Valid() && |bits| == 8 && count <= 8
      modifies this
      ensures Valid() && rem == Divide(poly, old(rem), bits[8 - count..])
    {
      hide Step, Xor;
      ghost var wanted := bits[8 - count..];
      var x := bits[8 - count..] + Zeros(8 - count);
      for i := 0 to count
        invariant Valid() && |x| == 8
        invariant x[..count - i] == wanted[i..]
        invariant rem == Divide(poly, old(rem), wanted[..i])
      {
        hide Divide, Zeros;
        DivideOne(poly, old(rem), wanted, i);
        assert x[0] == x[..count - i][0] == wanted[i];
        ProcessBit(x[0]);
        assert (x[1..] + [false])[..count - i - 1] == x[..count - i][1..];
        x := x[1..] + [false];
      }
      assert wanted[..count] == wanted;
    }

    method ProcessByte(b: Byte)
      requires Valid()
      modifies this
      ensures Valid() && rem == Divide(poly, old(rem), OrderBits(reflectIn, ToBits(8, b)))
    {
      var bits := ToBits(8, b);
      if reflectIn {
        bits := Reflect(bits);
      }
      assert bits[8 - 8..] == bits;
      ProcessBits(bits, 8);
    }

    method ProcessBlock(msg: seq<Byte>)
      requires Valid()
      modifies this
      ensures Valid() && rem == DivideBytes(poly, reflectIn, old(rem), msg)
    {
      for i := 0 to |msg|
        invariant Valid() && rem == DivideBytes(poly, reflectIn, old(rem), msg[..i])
      {
        assert msg[..i + 1][..i] == msg[..i];
        ProcessByte(msg[i]);
      }
      assert msg[..|msg|] == msg;
    }

    method GetChecksum() returns (c: Word)
      requires Valid()
      ensures c == Xor(OrderBits(reflectOut, rem), final)
    {
      c := rem;
      if reflectOut {
        c := Reflect(c);
      }
      c := Xor(c, final);
    }
  }

  /** The lookup table holds the remainder of every byte, at the byte's own number. */
  ghost predicate IsTable(p: Word, reflect: bool, table: seq<Word>)
    requires |p| > 0
  {
    |table| == 256 && forall d :: 0 <= d < 256 ==> table[d] == Entry(p, reflect, ToBits(8, d))
  }

  /** The remainder of one byte, bit by bit. */
  method ByteRemainder(p: Word, dividend: Word) returns (remainder: Word)
    requires |p| > 0
    ensures remainder == Divide(p, Zeros(|p|), dividend)
  {
    hide Xor;
    remainder := Zeros(|p|);
    for i := 0 to |dividend|
      invariant |remainder| == |p|
      invariant remainder == Divide(p, Zeros(|p|), dividend[..i])
    {
      hide Divide, Zeros;
      DivideOne(p, Zeros(|p|), dividend, i);
      DivideBit(p, remainder, dividend[i]);
      ghost var before := remainder;
      if dividend[i] {
        remainder := remainder[0 := !remainder[0]];
      }
      assert remainder == [before[0] != dividend[i]] + before[1..];
      if remainder[0] {
        remainder := Xor(remainder[1..] + [false], p);
      } else {
        remainder := remainder[1..] + [false];
      }
    }
    assert dividend[..|dividend|] == dividend;
  }

  lemma OrderTwice(reflect: bool, w: Word)
    ensures OrderBits(reflect, OrderBits(reflect, w)) == w
  {
    MirrorTwice(w);
  }

  /** Where the entry of byte `d` is kept. */
  function Slot(reflect: bool, d: Byte): (index: Byte)
    ensures ToBits(8, index) == OrderBits(reflect, ToBits(8, d))
  {
    ByteOf(OrderBits(reflect, ToBits(8, d)))
  }

  lemma SlotTwice(reflect: bool, d: Byte)
    ensures Slot(reflect, Slot(reflect, d)) == d
  {
    OrderTwice(reflect, ToBits(8, d));
    assert Pow2(8) == 256;
    ValueOfBits(8, d);
  }

  /** The entry of byte `d` and where to store it. */
  method TableEntry(p: Word, reflect: bool, d: Byte) returns (index: Byte, remainder: Word)
    requires |p| > 0
    ensures index == Slot(reflect, d) && remainder == Entry(p, reflect, ToBits(8, index))
  {
    var bits := ToBits(8, d);
    OrderTwice(reflect, bits);
    remainder := ByteRemainder(p, bits);
    if reflect {
      bits := Reflect(bits);
      remainder := Reflect(remainder);
    }
    index := ByteOf(bits);
  }

  method InitTable(p: Word, reflect: bool) returns (table: array<Word>)
    requires |p| > 0
    ensures fresh(table) && IsTable(p, reflect, table[..])
  {
    hide Divide, Slot;
    table := new Word[256];
    for dividend := 0 to 256
      invariant forall d :: 0 <= d < dividend ==>
                  table[Slot(reflect, d)] == Entry(p, reflect, ToBits(8, Slot(reflect, d)))
    {
      var index, remainder := TableEntry(p, reflect, dividend);
      table[index] := remainder;
    }
    forall d: Byte ensures table[d] == Entry(p, reflect, ToBits(8, d)) {
      SlotTwice(reflect, d);
    }
  }

  class CrcOptimal {
    const poly: Word
    const init: Word
    const final: Word
    const reflectIn: bool
    const reflectOut: bool
    const table: array<Word>
    var rem: Word

    ghost predicate Valid()
      reads this, table
    {
      |poly| == |init| == |final| == |rem| > 0 && IsTable(poly, reflectIn, table[..])
    }

    constructor (poly: Word, init: Word, final: Word, reflectIn: bool, reflectOut: bool)
      requires |poly| == |init| == |final| > 0
      ensures Valid() && fresh(table)
      ensures this.poly == poly && this.init == init && this.final == final
      ensures this.reflectIn == reflectIn && this.reflectOut == reflectOut
      ensures rem == OrderBits(reflectIn, init)
    {
      this.poly, this.init, this.final := poly, init, final;
      this.reflectIn, this.reflectOut := reflectIn, reflectOut;
      var start := init;
      if reflectIn {
        start := Reflect(start);
      }
      rem := start;
      var t := InitTable(poly, reflectIn);
      table := t;
    }

    /** The loop body: one byte through the table. */
    method ProcessIndexed(x: Word)
      requires Valid() && |x| == 8
      modifies this
      ensures Valid() && rem == FastByte(poly, reflectIn, old(rem), x)
    {
      hide Entry, Xor, Zeros;
      var n := |rem|;
      if n < 8 {
        var byteIndex := Xor(if reflectIn then Zeros(8 - n) + rem else rem + Zeros(8 - n), x);
        rem := table[ByteOf(byteIndex)];
      } else if reflectIn {
        var byteIndex := Xor(rem[n - 8..], x);
        rem := Xor(Zeros(8) + rem[..n - 8], table[ByteOf(byteIndex)]);
      } else {
        var byteIndex := Xor(rem[..8], x);
        rem := Xor(rem[8..] + Zeros(8), table[ByteOf(byteIndex)]);
      }
    }

    /** The fast remainder stays the (possibly bit-reversed) remainder of the plain division. */
    method ProcessBlock(msg: seq<Byte>, ghost plain: Word)
      requires Valid() && |plain| == |poly| && rem == OrderBits(reflectIn, plain)
      modifies this
      ensures Valid() && rem == OrderBits(reflectIn, DivideBytes(poly, reflectIn, plain, msg))
    {
      hide FastByte, Divide, IsTable;
      for i := 0 to |msg|
        invariant Valid()
        invariant rem == OrderBits(reflectIn, DivideBytes(poly, reflectIn, plain, msg[..i]))
      {
        var x := ToBits(8, msg[i]);
        FastByteIsDivide(poly, reflectIn, DivideBytes(poly, reflectIn, plain, msg[..i]), x);
        assert msg[..i + 1][..i] == msg[..i];
        ProcessIndexed(x);
      }
      assert msg[..|msg|] == msg;
    }

    /** The result is reflected only when input and output reflection differ. */
    method GetChecksum() returns (c: Word)
      requires Valid()
      ensures c == Xor(OrderBits(reflectOut != reflectIn, rem), final)
    {
      c := rem;
      if reflectOut != reflectIn {
        c := Reflect(c);
      }
      c := Xor(c, final);
    }
  }

  /** The simple engine run over a whole message. */
  method BasicCrc(poly: Word, init: Word, final: Word, reflectIn: bool, reflectOut: bool, msg: seq<Byte>)
    returns (c: Word)
    requires |poly| == |init| == |final| > 0
    ensures c == Checksum(poly, init, final, reflectIn, reflectOut, msg)
  {
    var computer := new CrcBasic(poly, init, final, reflectIn, reflectOut);
    computer.ProcessBlock(msg);
    c := computer.GetChecksum();
  }

  /** The table-driven engine run over a whole message gives the very same checksum. */
  method FastCrc(poly: Word, init: Word, final: Word, reflectIn: bool, reflectOut: bool, msg: seq<Byte>)
    returns (c: Word)
    requires |poly| == |init| == |final| > 0
    ensures c == Checksum(poly, init, final, reflectIn, reflectOut, msg)
  {
    var computer := new CrcOptimal(poly, init, final, reflectIn, reflectOut);
    computer.ProcessBlock(msg, init);
    c := computer.GetChecksum();
    OrderTwice(true, DivideBytes(poly, reflectIn, init, msg));
  }

  /** The augmented-message form; `final` and reflection do not apply to it. */
  method AugmentedCrc(p: Word, initial: Word, msg: seq<Byte>) returns (rem: Word)
    requires |p| == |initial| >= 8
    ensures rem == Augment(p, initial, msg)
  {
    hide ToBits, Xor, ByteOf;
    rem := initial;
    var table := InitTable(p, false);
    for i := 0 to |msg|
      invariant |rem| == |p| && rem == Augment(p, initial, msg[..i])
      invariant IsTable(p, false, table[..])
    {
      assert msg[..i + 1][..i] == msg[..i];
      var index := rem[..8];
      rem := Xor(rem[8..] + ToBits(8, msg[i]), table[ByteOf(index)]);
    }
    assert msg[..|msg|] == msg;
  }

  // ---- crc_32_type, the code of the STUN FINGERPRINT ----

  const POLY32: Word := ToBits(32, 0x04C1_1DB7)
  const ONES32: Word := ToBits(32, 0xFFFF_FFFF)

  function Crc32(msg: seq<Byte>): (c: Word)
    ensures |c| == 32
  {
    Checksum(POLY32, ONES32, ONES32, true, true, msg)
  }
}

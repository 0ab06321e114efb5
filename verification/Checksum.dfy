/** The one's complement checks of common/datacheck.cpp (section 1 of RFC 1071). */
module Checksum {
  import opened Bits
  import opened Arithmetic

  // ---- What is added up ----

  /** Words are little-endian; an odd last byte counts as itself. */
  function Sum16(data: seq<Byte>): nat
  {
    if |data| == 0 then 0
    else if |data| == 1 then data[0]
    else data[0] + 256 * data[1] + Sum16(data[2..])
  }

  function Sum8(data: seq<Byte>): nat
  {
    if data == [] then 0 else data[0] + Sum8(data[1..])
  }

  // ---- Folding carries back in ----

  /** The representative of c modulo base - 1 in 1 .. base - 1, or zero for zero. */
  function Residue(base: nat, c: nat): nat
    requires base >= 2
  {
    if c == 0 then 0 else (c - 1) % (base - 1) + 1
  }

  lemma ResidueOfSmall(base: nat, c: nat)
    requires base >= 2 && c < base
    ensures Residue(base, c) == c
  {
  }

  lemma ResidueShift(base: nat, c: nat, q: nat)
    requires base >= 2 && c > 0
    ensures Residue(base, c + q * (base - 1)) == Residue(base, c)
  {
    var m := base - 1;
    var p, r := (c - 1) / m, (c - 1) % m;
    assert c - 1 == p * m + r;
    assert c + q * m - 1 == (p + q) * m + r;
    ModIs(c + q * m - 1, m, p + q, r);
  }

  lemma FoldStep(base: nat, c: nat)
    requires base >= 2 && c >= base
    ensures 0 < c / base + c % base < c
    ensures Residue(base, c / base + c % base) == Residue(base, c)
  {
    var q, r := c / base, c % base;
    assert c == q * base + r;
    assert q > 0;
    assert c == q + r + q * (base - 1);
    assert q * (base - 1) > 0;
    ResidueShift(base, q + r, q);
  }

  /** Folds until one digit to `base` is left. */
  method Fold(base: nat, sum: nat) returns (c: nat)
    requires base >= 2
    ensures c == Residue(base, sum) && c < base
  {
    hide Residue;
    c := sum;
    while c / base > 0
      invariant Residue(base, c) == Residue(base, sum)
      decreases c
    {
      FoldStep(base, c);
      c := c / base + c % base;
    }
    ResidueOfSmall(base, c);
  }

  // ---- The two checks ----

  function Check16(data: seq<Byte>): nat
  {
    0xffff - Residue(0x1_0000, Sum16(data))
  }

  function Check8(data: seq<Byte>): nat
  {
    0xff - Residue(0x100, Sum8(data))
  }

  method DataCheck16(data: seq<Byte>) returns (check: nat)
    ensures check == Check16(data) && check < 0x1_0000
  {
    hide Residue;
    var sum: nat, at, size := 0, 0, |data|;
    while size > 1
      invariant 0 <= at <= |data| && size == |data| - at && sum + Sum16(data[at..]) == Sum16(data)
    {
      assert data[at..][2..] == data[at + 2..];
      sum := sum + data[at] + 256 * (data[at + 1] as int);
      at, size := at + 2, size - 2;
    }
    if size > 0 {
      sum := sum + data[at];
    }
    var c := Fold(0x1_0000, sum);
    check := 0xffff - c;
  }

  method DataCheck8(data: seq<Byte>) returns (check: nat)
    ensures check == Check8(data) && check < 0x100
  {
    hide Residue;
    var sum: nat, at := 0, 0;
    while at < |data|
      invariant 0 <= at <= |data| && sum + Sum8(data[at..]) == Sum8(data)
    {
      assert data[at..][1..] == data[at + 1..];
      sum := sum + data[at];
      at := at + 1;
    }
    var c := Fold(0x100, sum);
    check := 0xff - c;
  }

  // ---- What they are for ----

  /** The complement of a check is congruent to the sum, and is zero only for a zero sum. */
  lemma ResidueIsCongruent(base: nat, c: nat)
    requires base >= 2
    ensures Residue(base, c) < base && (Residue(base, c) == 0 <==> c == 0)
    ensures c % (base - 1) == Residue(base, c) % (base - 1)
  {
    if c > 0 {
      var m := base - 1;
      var p, r := (c - 1) / m, (c - 1) % m;
      assert c == p * m + r + 1;
      if r + 1 < m {
        ModIs(c, m, p, r + 1);
        ModIs(r + 1, m, 0, r + 1);
      } else {
        assert c == (p + 1) * m;
        ModIs(c, m, p + 1, 0);
        ModIs(m, m, 1, 0);
      }
    }
  }

  lemma Check16IsComplement(data: seq<Byte>)
    ensures Check16(data) <= 0xffff && (0xffff - Check16(data)) % 0xffff == Sum16(data) % 0xffff
    ensures Check16(data) == 0xffff <==> Sum16(data) == 0
  {
    hide Residue;
    ResidueIsCongruent(0x1_0000, Sum16(data));
  }

  lemma Check8IsComplement(data: seq<Byte>)
    ensures Check8(data) <= 0xff && (0xff - Check8(data)) % 0xff == Sum8(data) % 0xff
    ensures Check8(data) == 0xff <==> Sum8(data) == 0
  {
    hide Residue;
    ResidueIsCongruent(0x100, Sum8(data));
  }

  lemma {:induction false} Sum16Append(data: seq<Byte>, lo: Byte, hi: Byte)
    requires |data| % 2 == 0
    ensures Sum16(data + [lo, hi]) == Sum16(data) + lo + 256 * hi
    decreases |data|
  {
    if data == [] {
      assert data + [lo, hi] == [lo, hi];
      assert [lo, hi][2..] == [];
    } else {
      assert (data + [lo, hi])[2..] == data[2..] + [lo, hi];
      Sum16Append(data[2..], lo, hi);
    }
  }

  /** Adding a digit to a positive sum adds it to the residue, with the carry brought around. */
  lemma ResidueAdd(base: nat, c: nat, w: nat)
    requires base >= 2 && c > 0 && w < base
    ensures var s := Residue(base, c) + w; Residue(base, c + w) == if s < base then s else s - (base - 1)
  {
    var m := base - 1;
    var p, r := (c - 1) / m, (c - 1) % m;
    assert c - 1 == p * m + r;
    if r + w < m {
      ModIs(c + w - 1, m, p, r + w);
    } else {
      assert (p + 1) * m == p * m + m;
      ModIs(c + w - 1, m, p + 1, r + w - m);
    }
  }

  /** Adding w to a sum folds to all ones exactly when w completes it. */
  lemma CompletesIff(base: nat, c: nat, w: nat)
    requires base >= 2 && w < base
    ensures Residue(base, c + w) == base - 1 <==>
              (w == base - 1 - Residue(base, c) || (Residue(base, c) == base - 1 && w == base - 1))
  {
    hide Residue;
    ResidueIsCongruent(base, c);
    if c == 0 {
      ResidueOfSmall(base, w);
    } else {
      ResidueAdd(base, c, w);
    }
  }

  /** A receiver that checks the data with a word appended gets zero exactly when the word is the check
      of the data; only a zero check has a second form, all ones. */
  lemma AppendedCheck16(data: seq<Byte>, lo: Byte, hi: Byte)
    requires |data| % 2 == 0
    ensures Check16(data + [lo, hi]) == 0 <==>
              (lo + 256 * hi == Check16(data) || (Check16(data) == 0 && lo + 256 * hi == 0xffff))
  {
    hide Residue;
    Sum16Append(data, lo, hi);
    CompletesIff(0x1_0000, Sum16(data), lo + 256 * hi);
  }

  // ---- Every byte counts ----

  /** A byte counts once at an even place and 256 times at an odd one. */
  lemma {:induction false} ByteIn16(data: seq<Byte>, i: nat, x: Byte)
    requires i < |data|
    ensures var w := if i % 2 == 0 then 1 else 256;
            Sum16(data[i := x]) as int == Sum16(data) + w * (x as int - data[i] as int)
    decreases |data|
  {
    var e := data[i := x];
    if i >= 2 {
      assert e[2..] == data[2..][i - 2 := x];
      ByteIn16(data[2..], i - 2, x);
    } else if |data| > 1 {
      assert e[2..] == data[2..];
    }
  }

  lemma {:induction false} ByteIn8(data: seq<Byte>, i: nat, x: Byte)
    requires i < |data|
    ensures Sum8(data[i := x]) as int == Sum8(data) + (x as int - data[i] as int)
    decreases |data|
  {
    var e := data[i := x];
    if i > 0 {
      assert e[1..] == data[1..][i - 1 := x];
      ByteIn8(data[1..], i - 1, x);
    } else {
      assert e[1..] == data[1..];
    }
  }

  /** Sums that differ by less than the modulus have different residues. */
  lemma CloseResidues(base: nat, a: nat, b: nat)
    requires base >= 2 && a < b < a + (base - 1)
    ensures Residue(base, a) != Residue(base, b)
  {
    var m := base - 1;
    ResidueIsCongruent(base, a);
    ResidueIsCongruent(base, b);
    hide Residue;
    if Residue(base, a) == Residue(base, b) {
      NotCongruent(m, a, b);
    }
  }

  lemma NotCongruent(m: nat, a: nat, b: nat)
    requires m > 0 && a < b < a + m
    ensures a % m != b % m
  {
    var p, q := a / m, b / m;
    assert a == p * m + a % m && b == q * m + b % m;
    if a % m == b % m {
      Multiple(m, p, q);
    }
  }

  lemma Multiple(m: nat, p: nat, q: nat)
    requires m > 0
    ensures q * m - p * m <= 0 || q * m - p * m >= m
  {
    if q > p {
      MulMono(p + 1, q, m);
      assert (p + 1) * m == p * m + m;
    }
  }

  /** Any other byte in one place changes the sixteen-bit check. */
  lemma OneByteChangesCheck16(data: seq<Byte>, i: nat, x: Byte)
    requires i < |data| && x != data[i]
    ensures Check16(data[i := x]) != Check16(data)
  {
    hide Sum16, Residue;
    ByteIn16(data, i, x);
    var a, b := Sum16(data), Sum16(data[i := x]);
    if a < b {
      CloseResidues(0x1_0000, a, b);
    } else {
      CloseResidues(0x1_0000, b, a);
    }
    assert Residue(0x1_0000, a) <= 0xffff && Residue(0x1_0000, b) <= 0xffff by {
      ResidueIsCongruent(0x1_0000, a);
      ResidueIsCongruent(0x1_0000, b);
    }
  }

  /** And the eight-bit one, except that for a zero byte 255 can stand, or the other way around, when another byte is
      not zero. */
  lemma OneByteChangesCheck8(data: seq<Byte>, i: nat, x: Byte)
    requires i < |data| && x != data[i]
    ensures Check8(data[i := x]) == Check8(data) <==>
              {x, data[i]} == {0, 255} && Sum8(data) != 0 && Sum8(data[i := x]) != 0
  {
    hide Sum8, Residue;
    ByteIn8(data, i, x);
    var a, b := Sum8(data), Sum8(data[i := x]);
    ResidueIsCongruent(0x100, a);
    ResidueIsCongruent(0x100, b);
    if a < b {
      EightBitResidues(a, b);
    } else {
      EightBitResidues(b, a);
    }
    assert {x, data[i]} == {0, 255} <==> x as int - data[i] as int == 255 || data[i] as int - x as int == 255 by {
      Extremes(x, data[i]);
    }
  }

  lemma Extremes(x: Byte, y: Byte)
    requires x != y
    ensures {x, y} == {0, 255} <==> x as int - y as int == 255 || y as int - x as int == 255
  {
    if {x, y} == {0, 255} {
      assert x in {0, 255} && y in {0, 255};
    }
  }

  lemma EightBitResidues(a: nat, b: nat)
    requires a < b <= a + 255
    ensures Residue(0x100, a) == Residue(0x100, b) <==> b == a + 255 && a != 0
  {
    if b < a + 255 {
      CloseResidues(0x100, a, b);
    } else if a > 0 {
      ResidueShift(0x100, a, 1);
    }
  }
}

/** Bytes and the little-endian numbers kept in them. */
module Bytes {

  import opened Numbers

  type Byte = x: int | 0 <= x < 256

  function U16At(b: seq<Byte>, at: nat): (v: nat)
    requires at + 2 <= |b|
    ensures v < 0x1_0000
  {
    b[at] as int + b[at + 1] as int * 0x100
  }

  function U32At(b: seq<Byte>, at: nat): (v: nat)
    requires at + 4 <= |b|
    ensures v < 0x1_0000_0000
  {
    U16At(b, at) + 0x1_0000 * U16At(b, at + 2)
  }

  /** A number in `n` bytes, the low one first. */
  function LittleEndian(v: nat, n: nat): (b: seq<Byte>)
    ensures |b| == n
  {
    seq(n, i requires 0 <= i < n => v / Power(0x100, i) % 0x100)
  }

  function Value(b: seq<Byte>): nat {
    if b == [] then 0 else b[0] as int + 0x100 * Value(b[1..])
  }

  lemma LowByteFirst(v: nat, n: nat)
    requires n > 0
    ensures LittleEndian(v, n) == [v % 0x100] + LittleEndian(v / 0x100, n - 1)
  {
    var b := [v % 0x100] + LittleEndian(v / 0x100, n - 1);
    forall i | 0 <= i < n ensures LittleEndian(v, n)[i] == b[i] {
      if i > 0 {
        DivTwice(v, 0x100, Power(0x100, i - 1));
      }
    }
  }

  /** A number that fits is read back as it was written. */
  lemma {:induction false} ValueReadsBack(v: nat, n: nat)
    requires v < Power(0x100, n)
    ensures Value(LittleEndian(v, n)) == v
  {
    if n > 0 {
      ValueReadsBack(v / 0x100, n - 1);
      LowByteFirst(v, n);
      assert LittleEndian(v, n)[1..] == LittleEndian(v / 0x100, n - 1);
    }
  }

  /** The four bytes of a 32-bit number. */
  lemma FourBytes(v: nat)
    requires v < 0x1_0000_0000
    ensures LittleEndian(v, 4) == [v % 0x100, v / 0x100 % 0x100, v / 0x1_0000 % 0x100, v / 0x100_0000]
  {
    assert Power(0x100, 1) == 0x100 && Power(0x100, 2) == 0x1_0000 && Power(0x100, 3) == 0x100_0000;
  }

  lemma JoinDigits(v: nat)
    requires v < 0x1_0000_0000
    ensures v % 0x100 + v / 0x100 % 0x100 * 0x100 + 0x1_0000 * (v / 0x1_0000 % 0x100 + v / 0x100_0000 * 0x100) == v
    ensures v / 0x100_0000 < 0x100
  {
  }

  lemma SplitDigits(b0: nat, b1: nat, b2: nat, b3: nat)
    requires b0 < 0x100 && b1 < 0x100 && b2 < 0x100 && b3 < 0x100
    ensures var v := b0 + b1 * 0x100 + 0x1_0000 * (b2 + b3 * 0x100);
            v % 0x100 == b0 && v / 0x100 % 0x100 == b1 && v / 0x1_0000 % 0x100 == b2 && v / 0x100_0000 == b3
  {
  }

  /** A four-byte number that was written is read back, whatever follows it. */
  lemma U32ReadsBack(v: nat, before: seq<Byte>, after: seq<Byte>)
    requires v < 0x1_0000_0000
    ensures var b := before + LittleEndian(v, 4) + after; U32At(b, |before|) == v
  {
    FourBytes(v);
    JoinDigits(v);
  }

  /** Four bytes that were read are written as they were. */
  lemma U32WritesBack(b: seq<Byte>, at: nat)
    requires at + 4 <= |b|
    ensures LittleEndian(U32At(b, at), 4) == b[at..at + 4]
  {
    FourBytes(U32At(b, at));
    SplitDigits(b[at], b[at + 1], b[at + 2], b[at + 3]);
  }

  // ---- Memory ----

  function Zeros(n: nat): (b: seq<Byte>)
    ensures |b| == n
  {
    seq(n, i => 0)
  }

  /** Memory with `piece` in place of what was at `from`. */
  function Spliced(mem: seq<Byte>, from: int, piece: seq<Byte>): seq<Byte> {
    if 0 <= from && from + |piece| <= |mem| then mem[..from] + piece + mem[from + |piece|..] else mem
  }

  /** memset(..., 0, n). */
  method Clear(mem: array<Byte>, from: nat, n: nat)
    requires from + n <= mem.Length
    modifies mem
    ensures mem[..] == Spliced(old(mem[..]), from, Zeros(n))
  {
    forall i | from <= i < from + n {
      mem[i] := 0;
    }
  }

  /** memcpy of `piece`. */
  method Copy(mem: array<Byte>, from: nat, piece: seq<Byte>)
    requires from + |piece| <= mem.Length
    modifies mem
    ensures mem[..] == Spliced(old(mem[..]), from, piece)
  {
    forall i | 0 <= i < |piece| {
      mem[from + i] := piece[i];
    }
  }
}

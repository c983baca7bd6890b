/** Bytes and the fixed-width big-endian numbers that encoding/binary writes. */
module Bytes {

  type Byte = b: int | 0 <= b < 256

  function Pow256(n: nat): (p: nat)
    ensures p >= 1
  {
    if n == 0 then 1 else 256 * Pow256(n - 1)
  }

  /** The width low bytes of a number, most significant first. */
  function BigEndian(n: nat, width: nat): (b: seq<Byte>)
    ensures |b| == width
    decreases width, n
  {
    if width == 0 then [] else BigEndian(n / 256, width - 1) + [n % 256]
  }

  /** The eight bytes of a number, most significant first. */
  function EightBytes(n: nat): (b: seq<Byte>) {
    [n / 0x100_0000_0000_0000 % 256, n / 0x1_0000_0000_0000 % 256, n / 0x100_0000_0000 % 256, n / 0x1_0000_0000 % 256,
     n / 0x100_0000 % 256, n / 0x1_0000 % 256, n / 0x100 % 256, n % 256]
  }

  lemma EightBytesWrite(n: nat, width: nat)
    requires width == 8
    ensures BigEndian(n, width) == EightBytes(n)
    ensures EightBytes(n)
         == [n / 0x100_0000_0000_0000 % 256, n / 0x1_0000_0000_0000 % 256, n / 0x100_0000_0000 % 256,
             n / 0x1_0000_0000 % 256, n / 0x100_0000 % 256, n / 0x1_0000 % 256, n / 0x100 % 256, n % 256]
  {
    var high := n / 0x1_0000_0000;
    LastFour(n, 4);
    LastFour(high, 0);
    assert high / 0x100_0000 == n / 0x100_0000_0000_0000 && high / 0x1_0000 == n / 0x1_0000_0000_0000
        && high / 0x100 == n / 0x100_0000_0000;
  }

  lemma LastFour(n: nat, width: nat)
    ensures BigEndian(n, width + 4)
         == BigEndian(n / 0x1_0000_0000, width) + [n / 0x100_0000 % 256, n / 0x1_0000 % 256, n / 0x100 % 256, n % 256]
  {
    var s1, s2, s3 := n / 0x100, n / 0x1_0000, n / 0x100_0000;
    assert s1 / 256 == s2 && s2 / 256 == s3 && s3 / 256 == n / 0x1_0000_0000;
    LastByte(n, width + 3);
    LastByte(s1, width + 2);
    LastByte(s2, width + 1);
    LastByte(s3, width);
  }

  lemma LastByte(n: nat, width: nat)
    ensures BigEndian(n, width + 1) == BigEndian(n / 256, width) + [n % 256]
  {
  }

  /** The number some big-endian bytes write. */
  function Number(b: seq<Byte>): nat {
    if b == [] then 0 else 256 * Number(b[..|b| - 1]) + b[|b| - 1] as int
  }

  /** Nothing is lost: the bytes of a number that fits write that number. */
  lemma {:induction false} NumberOfBigEndian(n: nat, width: nat)
    requires n < Pow256(width)
    ensures Number(BigEndian(n, width)) == n
  {
    if width > 0 {
      NumberOfBigEndian(n / 256, width - 1);
      var b := BigEndian(n, width);
      assert b[..|b| - 1] == BigEndian(n / 256, width - 1);
    }
  }
}

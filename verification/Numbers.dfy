/** Big-endian numbers, as encoding/binary writes and reads them. */
module Numbers {
  import opened Basics

  type uint32 = x: int | 0 <= x < 0x1_0000_0000

  function BigEndian(x: nat, n: nat): (r: Bytes)
    ensures |r| == n
  {
    if n == 0 then [] else BigEndian(x / 256, n - 1) + [(x % 256) as byte]
  }

  function ReadBigEndian(b: Bytes): nat
  {
    if b == [] then 0 else 256 * ReadBigEndian(b[..|b| - 1]) + b[|b| - 1] as nat
  }

  function Power256(n: nat): nat
  {
    if n == 0 then 1 else 256 * Power256(n - 1)
  }

  lemma {:induction false} ReadInRange(b: Bytes)
    ensures ReadBigEndian(b) < Power256(|b|)
  {
    if b != [] {
      ReadInRange(b[..|b| - 1]);
    }
  }

  lemma {:induction false} ReadBack(x: nat, n: nat)
    requires x < Power256(n)
    ensures ReadBigEndian(BigEndian(x, n)) == x
  {
    if n > 0 {
      ReadBack(x / 256, n - 1);
      assert BigEndian(x, n)[..n - 1] == BigEndian(x / 256, n - 1);
    }
  }

  lemma {:induction false} FourBytes()
    ensures Power256(1) == 0x100 && Power256(2) == 0x1_0000 && Power256(3) == 0x100_0000 && Power256(4) == 0x1_0000_0000
  {
    assert Power256(2) == 256 * Power256(1);
    assert Power256(3) == 256 * Power256(2);
    assert Power256(4) == 256 * Power256(3);
  }

  /** The low 32 bits of x, most significant byte first. */
  function U32(x: nat): (r: Bytes)
    ensures |r| == 4
  {
    BigEndian(x % 0x1_0000_0000, 4)
  }

  function ReadU32(b: Bytes): uint32
    requires |b| == 4
  {
    ReadInRange(b);
    FourBytes();
    ReadBigEndian(b)
  }

  lemma {:induction false} ReadWritten(x: nat)
    ensures ReadU32(U32(x)) == x % 0x1_0000_0000
  {
    FourBytes();
    ReadBack(x % 0x1_0000_0000, 4);
  }

  lemma {:induction false} ReadFour(b: Bytes)
    requires |b| == 4
    ensures ReadU32(b) == 0x100_0000 * b[0] as nat + 0x1_0000 * b[1] as nat + 0x100 * b[2] as nat + b[3] as nat
  {
    assert b[..3][..2] == b[..2] && b[..2][..1] == b[..1] && b[..1][..0] == [];
    assert ReadBigEndian(b[..1]) == b[0] as nat;
    assert ReadBigEndian(b[..2]) == 256 * ReadBigEndian(b[..1]) + b[1] as nat;
    assert ReadBigEndian(b[..3]) == 256 * ReadBigEndian(b[..2]) + b[2] as nat;
  }

  lemma {:induction false} WriteBack(b: Bytes)
    ensures BigEndian(ReadBigEndian(b), |b|) == b
  {
    if b != [] {
      WriteBack(b[..|b| - 1]);
    }
  }

  lemma {:induction false} WrittenRead(b: Bytes)
    requires |b| == 4
    ensures U32(ReadU32(b)) == b
  {
    var x := ReadU32(b);
    assert x % 0x1_0000_0000 == x;
    WriteBack(b);
  }

  // ----- byte by byte -----

  /** The four bytes of x modulo 2^32, named one by one. */
  function Quad(x: nat): Bytes
  {
    var y := x % 0x1_0000_0000;
    [(y / 0x100_0000) as byte, (y / 0x1_0000 % 256) as byte, (y / 0x100 % 256) as byte, (y % 256) as byte]
  }

  /** The number that the four bytes at a position make. */
  function NumberAt(b: Bytes, at: nat): uint32
    requires at + 4 <= |b|
  {
    0x100_0000 * b[at] as nat + 0x1_0000 * b[at + 1] as nat + 0x100 * b[at + 2] as nat + b[at + 3] as nat
  }

  lemma {:induction false} BigEndianIs(x: nat, n: nat)
    requires n > 0
    ensures BigEndian(x, n) == BigEndian(x / 256, n - 1) + [(x % 256) as byte]
  {
  }

  lemma {:induction false} Quotients(x: nat)
    ensures x / 256 / 256 == x / 0x1_0000 && x / 256 / 256 / 256 == x / 0x100_0000
  {
  }

  lemma {:induction false} U32IsQuad(x: nat)
    ensures U32(x) == Quad(x)
  {
    var y := x % 0x1_0000_0000;
    BigEndianIs(y, 4);
    BigEndianIs(y / 256, 3);
    BigEndianIs(y / 256 / 256, 2);
    BigEndianIs(y / 256 / 256 / 256, 1);
    Quotients(y);
    assert BigEndian(y / 256 / 256 / 256 / 256, 0) == [];
  }

  lemma {:induction false} ReadIsNumber(b: Bytes, at: nat)
    requires at + 4 <= |b|
    ensures ReadU32(b[at..at + 4]) == NumberAt(b, at)
  {
    ReadFour(b[at..at + 4]);
  }
}

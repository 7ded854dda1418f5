// Bytes, and the big-endian integers of Go's encoding/binary.
module Bytes {
  newtype byte = x: int | 0 <= x < 256

  function Power256(width: nat): (n: int)
    ensures n >= 1
  {
    if width == 0 then 1 else 256 * Power256(width - 1)
  }

  // The number a byte string denotes, most significant byte first.
  function BigEndian(b: seq<byte>): (n: int)
    ensures 0 <= n < Power256(|b|)
  {
    if b == [] then 0 else BigEndian(b[..|b| - 1]) * 256 + b[|b| - 1] as int
  }

  function PutBigEndian(n: int, width: nat): (b: seq<byte>)
    requires 0 <= n < Power256(width)
    ensures |b| == width
  {
    if width == 0 then [] else PutBigEndian(n / 256, width - 1) + [(n % 256) as byte]
  }

  lemma {:induction false} BigEndianOfPut(n: int, width: nat)
    requires 0 <= n < Power256(width)
    ensures BigEndian(PutBigEndian(n, width)) == n
  {
    if width > 0 {
      BigEndianOfPut(n / 256, width - 1);
      assert PutBigEndian(n, width)[..width - 1] == PutBigEndian(n / 256, width - 1);
    }
  }

  lemma {:induction false} PutOfBigEndian(b: seq<byte>)
    ensures PutBigEndian(BigEndian(b), |b|) == b
  {
    if b != [] {
      PutOfBigEndian(b[..|b| - 1]);
      assert b == b[..|b| - 1] + [b[|b| - 1]];
    }
  }

  lemma Power256Of4()
    ensures Power256(4) == 0x1_0000_0000
  {
    assert Power256(2) == 256 * 256;
    assert Power256(3) == 256 * Power256(2);
  }

  // binary.BigEndian.Uint32 and PutUint32
  function Uint32(b: seq<byte>): (n: int)
    requires |b| == 4
    ensures 0 <= n < 0x1_0000_0000
  {
    Power256Of4();
    BigEndian(b)
  }

  function PutUint32(n: int): (b: seq<byte>)
    requires 0 <= n < 0x1_0000_0000
    ensures |b| == 4 && Uint32(b) == n
  {
    Power256Of4();
    BigEndianOfPut(n, 4);
    PutBigEndian(n, 4)
  }

  lemma PutUint32OfUint32(b: seq<byte>)
    requires |b| == 4
    ensures PutUint32(Uint32(b)) == b
  {
    PutOfBigEndian(b);
  }

  // Network byte order, spelled out.
  lemma Uint32Exactly(b: seq<byte>)
    requires |b| == 4
    ensures Uint32(b) == b[0] as int * 16777216 + b[1] as int * 65536 + b[2] as int * 256 + b[3] as int
  {
    var b3, b2, b1 := b[..3], b[..2], b[..1];
    assert b3[..2] == b2 && b2[..1] == b1 && b1[..0] == [];
    assert BigEndian(b1) == b[0] as int;
    assert BigEndian(b2) == BigEndian(b1) * 256 + b[1] as int;
    assert BigEndian(b3) == BigEndian(b2) * 256 + b[2] as int;
  }
}

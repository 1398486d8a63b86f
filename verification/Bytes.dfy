/** Byte strings and the big-endian integers written into them. */
module Bytes {
  type byte = x: int | 0 <= x < 256
  type bytes = seq<byte>

  function Min(a: nat, b: nat): nat { if a < b then a else b }

  function Pow256(width: nat): (p: nat)
    ensures p > 0
  {
    if width == 0 then 1 else 256 * Pow256(width - 1)
  }

  /** The low `width` bytes of `n`, most significant first. */
  function BigEndian(n: nat, width: nat): (b: bytes)
    ensures |b| == width
  {
    if width == 0 then [] else BigEndian(n / 256, width - 1) + [n % 256]
  }

  function FromBigEndian(b: bytes): (n: nat)
    ensures n < Pow256(|b|)
  {
    if b == [] then 0
    else
      var high := FromBigEndian(b[..|b| - 1]);
      assert high <= Pow256(|b| - 1) - 1;
      256 * high + b[|b| - 1]
  }

  lemma BigEndianLast(n: nat, width: nat)
    requires width > 0
    ensures BigEndian(n, width)[..width - 1] == BigEndian(n / 256, width - 1)
    ensures BigEndian(n, width)[width - 1] == n % 256
  {}

  lemma FromBigEndianLast(b: bytes)
    requires b != []
    ensures FromBigEndian(b) == 256 * FromBigEndian(b[..|b| - 1]) + b[|b| - 1]
  {}

  lemma Digits(n: nat, bound: nat)
    ensures n == 256 * (n / 256) + n % 256
    ensures n < 256 * bound ==> n / 256 < bound
  {}

  lemma OneDigit(high: nat, low: byte)
    ensures (256 * high + low) / 256 == high && (256 * high + low) % 256 == low
  {}

  lemma {:induction false} BigEndianRoundTrip(n: nat, width: nat)
    requires n < Pow256(width)
    ensures FromBigEndian(BigEndian(n, width)) == n
  {
    if width > 0 {
      hide BigEndian, FromBigEndian;
      Digits(n, Pow256(width - 1));
      BigEndianRoundTrip(n / 256, width - 1);
      BigEndianLast(n, width);
      FromBigEndianLast(BigEndian(n, width));
    }
  }

  lemma {:induction false} FromBigEndianRoundTrip(b: bytes)
    ensures BigEndian(FromBigEndian(b), |b|) == b
  {
    if b != [] {
      hide FromBigEndian;
      var high, low := FromBigEndian(b[..|b| - 1]), b[|b| - 1];
      FromBigEndianRoundTrip(b[..|b| - 1]);
      FromBigEndianLast(b);
      OneDigit(high, low);
      assert b == b[..|b| - 1] + [low];
    }
  }

  lemma WordSizes()
    ensures Pow256(2) == 0x1_0000
    ensures Pow256(4) == 0x1_0000_0000
    ensures Pow256(8) == 0x1_0000_0000_0000_0000
  {
    assert Pow256(1) == 256 && Pow256(2) == 0x1_0000 && Pow256(3) == 0x100_0000;
    assert Pow256(4) == 0x1_0000_0000 && Pow256(5) == 0x100_0000_0000;
    assert Pow256(6) == 0x1_0000_0000_0000 && Pow256(7) == 0x100_0000_0000_0000;
  }
}

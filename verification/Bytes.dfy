/**
 Byte strings and the big-endian 64-bit integers that both the hinted-handoff
 segments and the cluster message frames are built from.
 */
module Bytes {

  datatype Option<+T> = None | Some(value: T)

  type byte = x: int | 0 <= x < 256

  type Bytes = seq<byte>

  const TWO_63: nat := 0x8000_0000_0000_0000
  const TWO_64: nat := 0x1_0000_0000_0000_0000

  type uint64 = x: int | 0 <= x < 0x1_0000_0000_0000_0000

  type int64 = x: int | -0x8000_0000_0000_0000 <= x < 0x8000_0000_0000_0000

  /** `b` whose first byte is the most significant one, read as a number. */
  function FromBigEndian(b: Bytes): (x: nat) {
    if b == [] then 0 else FromBigEndian(b[..|b| - 1]) * 256 + b[|b| - 1]
  }

  /** The `n` least significant bytes of `x`, most significant first. */
  function ToBigEndian(x: nat, n: nat): (b: Bytes)
    ensures |b| == n
  {
    if n == 0 then [] else ToBigEndian(x / 256, n - 1) + [x % 256]
  }

  function Pow256(n: nat): (p: nat)
    ensures p > 0
  {
    if n == 0 then 1 else 256 * Pow256(n - 1)
  }

  function WordSize(): (n: nat)
    ensures n == 8
  {
    8
  }

  /** Writes the low 64 bits of `x`. */
  function PutUint64(x: nat): (b: Bytes)
    ensures |b| == 8
  {
    ToBigEndian(x, WordSize())
  }

  lemma {:induction false} BigEndianRoundTrip(x: nat, n: nat)
    requires x < Pow256(n)
    ensures FromBigEndian(ToBigEndian(x, n)) == x
  {
    if n > 0 {
      BigEndianRoundTrip(x / 256, n - 1);
      assert ToBigEndian(x, n)[..n - 1] == ToBigEndian(x / 256, n - 1);
    }
  }

  lemma {:induction false} BigEndianBounded(b: Bytes)
    ensures FromBigEndian(b) < Pow256(|b|)
    ensures ToBigEndian(FromBigEndian(b), |b|) == b
  {
    if b != [] {
      BigEndianBounded(b[..|b| - 1]);
      assert b == b[..|b| - 1] + [b[|b| - 1]];
    }
  }

  /** The first byte is the most significant one. */
  lemma {:induction false} BigEndianFirst(h: byte, b: Bytes)
    ensures FromBigEndian([h] + b) == h * Pow256(|b|) + FromBigEndian(b)
  {
    var s := [h] + b;
    if b == [] {
      assert s[..0] == [];
    } else {
      var n := |b| - 1;
      BigEndianFirst(h, b[..n]);
      assert s[..|s| - 1] == [h] + b[..n];
      assert h * Pow256(|b|) == h * Pow256(n) * 256;
    }
  }

  lemma Pow256Of8()
    ensures Pow256(8) == TWO_64
  {
    assert Pow256(4) == 0x1_0000_0000;
    assert Pow256(8) == 256 * (256 * (256 * (256 * Pow256(4))));
  }

  function Uint64(b: Bytes): (x: nat)
    requires |b| == 8
    ensures x < TWO_64
  {
    Pow256Of8();
    BigEndianBounded(b);
    FromBigEndian(b)
  }

  /** What `binary.BigEndian.PutUint64` writes, `binary.BigEndian.Uint64` reads back. */
  lemma Uint64RoundTrip(x: nat)
    requires x < TWO_64
    ensures Uint64(PutUint64(x)) == x
  {
    Pow256Of8();
    BigEndianRoundTrip(x, 8);
  }

  lemma Uint64Inverse(b: Bytes)
    requires |b| == 8
    ensures PutUint64(Uint64(b)) == b
  {
    BigEndianBounded(b);
  }
}

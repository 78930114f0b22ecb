/** Bytes and the host's little-endian integers. */
module ByteCodec {

  type byte = x: int | 0 <= x < 256
  type Bytes = seq<byte>

  function Pow256(n: nat): (p: nat)
    ensures p >= 1
  {
    if n == 0 then 1 else 256 * Pow256(n - 1)
  }

  lemma Sizes()
    ensures Pow256(1) == 0x100 && Pow256(2) == 0x1_0000 && Pow256(4) == 0x1_0000_0000
    ensures Pow256(8) == 0x1_0000_0000_0000_0000
  {
    assert Pow256(2) == 0x1_0000;
    assert Pow256(3) == 0x100_0000;
    assert Pow256(4) == 0x1_0000_0000;
    assert Pow256(6) == 0x1_0000_0000_0000;
  }

  /** The n bytes of x, least significant first. */
  function LittleEndian(x: nat, n: nat): (b: Bytes)
    ensures |b| == n
  {
    if n == 0 then [] else [x % 256] + LittleEndian(x / 256, n - 1)
  }

  function FromLittleEndian(b: Bytes): (x: nat)
    ensures x < Pow256(|b|)
  {
    if b == [] then 0 else b[0] + 256 * FromLittleEndian(b[1..])
  }

  lemma {:induction false} LittleEndianRoundTrip(x: nat, n: nat)
    requires x < Pow256(n)
    ensures FromLittleEndian(LittleEndian(x, n)) == x
  {
    if n > 0 {
      LittleEndianRoundTrip(x / 256, n - 1);
      assert LittleEndian(x, n)[1..] == LittleEndian(x / 256, n - 1);
    }
  }

  /** Two's complement in n bytes. */
  function Unsigned(x: int, n: nat): int {
    if x < 0 then x + Pow256(n) else x
  }

  function Signed(x: nat, n: nat): int {
    if 2 * x >= Pow256(n) then x - Pow256(n) else x
  }

  predicate FitsSigned(x: int, n: nat) {
    0 <= 2 * x + Pow256(n) < 2 * Pow256(n)
  }

  function EncodeInt(x: int, n: nat): (b: Bytes)
    requires FitsSigned(x, n)
    ensures |b| == n
  {
    LittleEndian(Unsigned(x, n), n)
  }

  function DecodeInt(b: Bytes): int {
    Signed(FromLittleEndian(b), |b|)
  }

  /** An appended integer reads back unchanged. */
  lemma IntRoundTrip(x: int, n: nat)
    requires FitsSigned(x, n)
    ensures DecodeInt(EncodeInt(x, n)) == x
  {
    LittleEndianRoundTrip(Unsigned(x, n), n);
  }

  /** Passing an unsigned 32-bit value through a signed parameter does not change its bytes. */
  lemma UnsignedThroughSigned(x: nat, n: nat)
    requires x < Pow256(n)
    ensures FitsSigned(Signed(x, n), n) && EncodeInt(Signed(x, n), n) == LittleEndian(x, n)
    ensures Unsigned(Signed(x, n), n) == x
  {
  }
}

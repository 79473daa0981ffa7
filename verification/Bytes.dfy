/** Big-endian integers as byte strings: Python's `int.to_bytes`, `int.from_bytes` and
    `int.bit_length`, and slices that clamp to the end of the data. */
module Bytes {

  type Byte = x: int | 0 <= x < 256
  type Bytes = seq<Byte>

  function Slice(data: Bytes, lo: nat, hi: nat): Bytes {
    if lo >= |data| || hi <= lo then []
    else if hi >= |data| then data[lo..]
    else data[lo..hi]
  }

  function FromBytes(b: Bytes): nat {
    if b == [] then 0 else FromBytes(b[..|b| - 1]) * 256 + b[|b| - 1]
  }

  /** The lowest `size` base-256 digits of `n`. */
  function ToBytes(n: nat, size: nat): (b: Bytes)
    ensures |b| == size
  {
    if size == 0 then [] else ToBytes(n / 256, size - 1) + [n % 256]
  }

  function Pow256(k: nat): (r: nat)
    ensures r > 0
  {
    if k == 0 then 1 else 256 * Pow256(k - 1)
  }

  lemma {:induction false} FromToBytes(n: nat, size: nat)
    requires n < Pow256(size)
    ensures FromBytes(ToBytes(n, size)) == n
  {
    if size > 0 {
      assert n / 256 < Pow256(size - 1);
      FromToBytes(n / 256, size - 1);
      assert ToBytes(n, size)[..size - 1] == ToBytes(n / 256, size - 1);
    }
  }

  function BitLength(n: nat): nat {
    if n == 0 then 0 else 1 + BitLength(n / 2)
  }

  /** The number of bytes `n` needs; none for zero. */
  function ByteLength(n: nat): nat {
    (BitLength(n) + 7) / 8
  }

  lemma HalfBitLength(n: nat)
    requires n > 0
    ensures BitLength(n) == 1 + BitLength(n / 2)
  {}

  /** One more byte, eight more bits. */
  lemma BitLengthStep(n: nat)
    requires n >= 256
    ensures BitLength(n) == BitLength(n / 256) + 8
  {
    HalfBitLength(n);
    HalfBitLength(n / 2);
    assert n / 2 / 2 == n / 4;
    HalfBitLength(n / 4);
    assert n / 4 / 2 == n / 8;
    HalfBitLength(n / 8);
    assert n / 8 / 2 == n / 16;
    HalfBitLength(n / 16);
    assert n / 16 / 2 == n / 32;
    HalfBitLength(n / 32);
    assert n / 32 / 2 == n / 64;
    HalfBitLength(n / 64);
    assert n / 64 / 2 == n / 128;
    HalfBitLength(n / 128);
    assert n / 128 / 2 == n / 256;
  }

  function Pow2(k: nat): nat {
    if k == 0 then 1 else 2 * Pow2(k - 1)
  }

  lemma {:induction false} Pow2Monotone(j: nat, k: nat)
    requires j <= k
    ensures Pow2(j) <= Pow2(k)
    decreases k - j
  {
    if j < k { Pow2Monotone(j, k - 1); }
  }

  lemma {:induction false} BitLengthExact(n: nat)
    requires n > 0
    ensures BitLength(n) > 0 && Pow2(BitLength(n) - 1) <= n < Pow2(BitLength(n))
  {
    if n > 1 { BitLengthExact(n / 2); }
  }

  lemma BitLengthSmall(n: nat)
    requires 0 < n < 256
    ensures 1 <= BitLength(n) <= 8
    ensures BitLength(n) == 8 <==> n >= 128
  {
    BitLengthExact(n);
    assert Pow2(7) == 128 && Pow2(8) == 256;
    if BitLength(n) > 8 { Pow2Monotone(8, BitLength(n) - 1); }
    if BitLength(n) < 8 { Pow2Monotone(BitLength(n), 7); }
  }

  /** `ByteLength` is exact: enough bytes, and the first one is not zero. */
  lemma {:induction false} ByteLengthExact(n: nat)
    ensures n < Pow256(ByteLength(n))
    ensures n > 0 ==> ByteLength(n) > 0 && Pow256(ByteLength(n) - 1) <= n
    decreases n
  {
    if n >= 256 {
      BitLengthStep(n);
      ByteLengthExact(n / 256);
      assert ByteLength(n) == ByteLength(n / 256) + 1;
    } else if n > 0 {
      BitLengthSmall(n);
      assert Pow256(1) == 256;
    }
  }

  lemma {:induction false} Pow256Monotone(j: nat, k: nat)
    requires j <= k
    ensures Pow256(j) <= Pow256(k)
    decreases k - j
  {
    if j < k { Pow256Monotone(j, k - 1); }
  }
}

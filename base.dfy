/** Shared vocabulary: wire bytes, bit positions and an optional value. */
module Base {

  /** One byte on the serial line (an unsigned 8-bit value, as C#'s `byte`). */
  type Byte = bv8

  /** A nullable result: `None` stands for the source's `null`. */
  datatype Option<T> = None | Some(value: T)

  /** Bit `k` of `b` (bit 0 least significant), defined arithmetically rather
      than with masks, so that the decoder's masks can be checked against it:
      halve `k` times, then test for odd. */
  predicate Bit(b: Byte, k: nat)
    requires k < 8
  {
    NatBit(b as int, k)
  }

  predicate NatBit(n: nat, k: nat)
  {
    if k == 0 then n % 2 == 1 else NatBit(n / 2, k - 1)
  }

  /** C#'s `(byte)x` cast on an `int` in an unchecked context: the low eight
      bits of the two's-complement value. */
  function LowByte(x: int): (b: Byte)
    ensures b as int == x % 256
    ensures 0 <= x < 256 ==> b as int == x
  {
    ByteOf(x % 256)
  }

  /** The byte whose value is `n`. */
  function ByteOf(n: nat): (b: Byte)
    requires n < 256
    ensures b as int == n
  {
    if n == 0 then 0 else ByteOf(n - 1) + 1
  }

  /** Every byte is the byte of its own value. */
  lemma {:induction false} ByteOfValue(b: Byte)
    ensures ByteOf(b as int) == b
    decreases b as int
  {
    if b != 0 {
      assert (b - 1) as int == b as int - 1;
      ByteOfValue(b - 1);
    }
  }

  /** The single-bit mask `1 << k` tests exactly the arithmetic bit `k`. */
  lemma {:induction false} MaskAt(b: Byte, k: nat)
    requires k < 8
    ensures (b & (1 << k) != 0) == Bit(b, k)
  {
    if k == 0 {
      LowBitIsOdd(b);
    } else {
      MaskAt(b >> 1, k - 1);
      MaskShift(b, k);
      HalveBit(b, k);
    }
  }

  lemma LowBitIsOdd(b: Byte)
    ensures (b & (1 << 0) != 0) == Bit(b, 0)
  {
    assert b & (1 << 0) == b & 1;
  }

  /** Testing bit `k` is testing bit `k - 1` of the byte shifted right once. */
  lemma MaskShift(b: Byte, k: nat)
    requires 0 < k < 8
    ensures (b & (1 << k) != 0) == ((b >> 1) & (1 << (k - 1)) != 0)
  {
  }

  /** Arithmetic bit `k` is bit `k - 1` of the halved byte. */
  lemma HalveBit(b: Byte, k: nat)
    requires 0 < k < 8
    ensures Bit(b, k) == Bit(b >> 1, k - 1)
  {
    assert (b >> 1) as int == b as int / 2;
  }

  /** Each of the decoder's single-bit masks tests exactly the arithmetic bit
      it stands for. */
  lemma MaskTestsBit(b: Byte)
    ensures (b & 0x01 != 0) == Bit(b, 0)
    ensures (b & 0x02 != 0) == Bit(b, 1)
    ensures (b & 0x04 != 0) == Bit(b, 2)
    ensures (b & 0x08 != 0) == Bit(b, 3)
    ensures (b & 0x10 != 0) == Bit(b, 4)
  {
    MaskAt(b, 0);
    MaskAt(b, 1);
    MaskAt(b, 2);
    MaskAt(b, 3);
    MaskAt(b, 4);
  }
}

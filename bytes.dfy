/** Conversions between small integers, bytes and 16-bit words. */
module Bytes {

  /** Kotlin's `toByte()` on a value in 0..255: the byte whose unsigned value is `x`. */
  function ToByte(x: int): (b: bv8)
    requires 0 <= x < 256
    ensures b as int == x
  {
    if x == 0 then 0 else ToByte(x - 1) + 1
  }

  /** Two bytes with the same value are the same byte. */
  lemma ByteInjective(a: bv8, b: bv8)
    requires a as int == b as int
    ensures a == b
  {
  }

  /** The low eight bits of a non-negative integer (Kotlin's `t and 0xFF` taken as a byte). */
  function LowByte(t: int): (b: bv8)
    requires t >= 0
    ensures b as int == t % 256
  {
    ToByte(t % 256)
  }

  /** A 16-bit value is its low byte plus 256 times its high byte. */
  lemma SplitWord(v: int)
    requires 0 <= v < 0x1_0000
    ensures v % 256 + 256 * ((v / 256) % 256) == v
  {
    var q, r := v / 256, v % 256;
    assert v == 256 * q + r;
    assert 0 <= q < 256;
    assert q % 256 == q;
  }

  /** OR-ing the low byte into an empty result gives the byte's value. */
  lemma OrLowByte(t: bv8)
    ensures ((0 as bv16) | ((t as bv16) << 0)) as int == t as int
  {
    var w := t as bv16;
    assert (0 as bv16) | (w << 0) == w;
  }

  /** OR-ing the high byte above a result below 256 adds 256 times its value. */
  lemma OrHighByte(acc: bv16, t: bv8)
    requires acc < 256
    ensures (acc | ((t as bv16) << 8)) as int == acc as int + 256 * t as int
  {
    var w := t as bv16;
    assert w as int == t as int;
    assert acc | (w << 8) == acc + w * 256;
    assert w < 256;
  }

  /** OR-ing byte number `i` (0 or 1) in at bit position `8 * i`, into a result that is still 0 for the first. */
  lemma OrByteAt(acc: bv16, t: bv8, i: bv16)
    requires i < 2
    requires i == 0 ==> acc == 0
    ensures acc | ((t as bv16) << (8 * i)) == if i == 0 then (0 as bv16) | ((t as bv16) << 0) else acc | ((t as bv16) << 8)
  {
  }

  /** Setting (OR) the bits of a non-zero mask makes it read as set; clearing them (AND NOT), as clear. */
  lemma SetClearMask(x: bv8, mask: bv8)
    requires mask != 0
    ensures (x | mask) & mask != 0 && (x & !mask) & mask == 0
  {
  }

  /** Setting or clearing the bits of `mask` leaves the bits of a disjoint mask `n` as they were. */
  lemma SetClearKeeps(x: bv8, mask: bv8, n: bv8)
    requires n & mask == 0
    ensures (x | mask) & n == x & n && (x & !mask) & n == x & n
  {
  }

  /** A little-endian pair holding `2048 + n`, for `n` in 0..255: the low byte is `n`, the high one 0x08. */
  lemma PairAbove2048(lo: bv8, hi: bv8, n: int)
    requires 0 <= n < 256
    requires lo as int + 256 * hi as int == 2048 + n
    ensures lo as int == n && hi == 0x08
  {
    assert hi as int == 8;
    ByteInjective(hi, 0x08);
  }
}

/** Two-byte little-endian reads and writes over a byte array (EndianUtils.kt). */
module EndianUtils {
  import opened Bytes

  /** Kotlin's UShort: an unsigned 16-bit value. */
  newtype UShort = x: int | 0 <= x < 0x1_0000

  /** The unsigned value of the two bytes at `offset`, least significant first. */
  function UShortLE(s: seq<bv8>, offset: nat): UShort
    requires offset + 1 < |s|
  {
    (s[offset] as int + 256 * s[offset + 1] as int) as UShort
  }

  /** `s` with `v` stored little-endian at `offset` and `offset + 1`. */
  function WithUShortLE(s: seq<bv8>, v: UShort, offset: nat): (r: seq<bv8>)
    requires offset + 1 < |s|
    ensures |r| == |s|
    ensures UShortLE(r, offset) == v
    ensures forall j | 0 <= j < |s| && j != offset && j != offset + 1 :: r[j] == s[j]
  {
    var lo, hi := LowByte(v as int), LowByte(v as int / 256);
    SplitWord(v as int);
    s[offset := lo][offset + 1 := hi]
  }

  /**
   * readUShortLE: ORs each byte, taken unsigned, into the result at bit position 8 * i.
   */
  method ReadUShortLE(a: array<bv8>, offset: nat) returns (r: UShort)
    requires offset + 1 < a.Length
    ensures r == UShortLE(a[..], offset)
    ensures r as int == a[offset] as int + 256 * a[offset + 1] as int
  {
    var result: bv16 := 0;
    var i: bv16 := 0;
    while i < 2
      invariant i <= 2
      invariant i == 0 ==> result == 0
      invariant i == 1 ==> result as int == a[offset] as int && result < 256
      invariant i == 2 ==> result as int == a[offset] as int + 256 * a[offset + 1] as int
      decreases 2 - i as int
    {
      var t := a[offset + i as int];
      OrByteAt(result, t, i);
      if i == 0 {
        OrLowByte(t);
      } else {
        OrHighByte(result, t);
      }
      result := result | ((t as bv16) << (8 * i));
      i := i + 1;
    }
    r := result as int as UShort;
  }

  /**
   * writeUShortLE: stores the low eight bits of `t` at `offset + i`, then shifts `t` right by 8.
   * `t` is never negative, so `t and 0xFF` is `t % 256` and `t shr 8` is `t / 256`.
   */
  method WriteUShortLE(a: array<bv8>, v: UShort, offset: nat)
    requires offset + 1 < a.Length
    modifies a
    ensures a[..] == WithUShortLE(old(a[..]), v, offset)
  {
    var t := v as int;
    for i := 0 to 2
      invariant t == if i == 0 then v as int else if i == 1 then v as int / 256 else 0
      invariant forall j | 0 <= j < a.Length && (j < offset || j >= offset + i) :: a[j] == old(a[j])
      invariant i >= 1 ==> a[offset] == LowByte(v as int)
      invariant i >= 2 ==> a[offset + 1] == LowByte(v as int / 256)
    {
      a[offset + i] := LowByte(t);
      t := t / 256;
    }
  }

  /** The nine-byte buffer of EndianUtilsKtTest: four values, one padding byte at index 4. */
  const EXAMPLE: seq<bv8> := [0x00, 0x08, 0xF0, 0x0F, 0x00, 0x34, 0x12, 0xFF, 0x00]

  /** The test's reads: EXAMPLE holds 0x0800, 0x0FF0, 0x1234 and 0x00FF at offsets 0, 2, 5 and 7. */
  lemma TestVectorsRead()
    ensures UShortLE(EXAMPLE, 0) == 0x0800 && UShortLE(EXAMPLE, 2) == 0x0FF0
    ensures UShortLE(EXAMPLE, 5) == 0x1234 && UShortLE(EXAMPLE, 7) == 0x00FF
  {
  }

  /** WithUShortLE stores exactly the bytes `lo` and `hi` whose values are `v % 256` and `v / 256`. */
  lemma StoresBytes(s: seq<bv8>, v: UShort, offset: nat, lo: bv8, hi: bv8)
    requires offset + 1 < |s|
    requires lo as int == v as int % 256 && hi as int == v as int / 256
    ensures WithUShortLE(s, v, offset) == s[offset := lo][offset + 1 := hi]
  {
    var r := WithUShortLE(s, v, offset);
    ByteInjective(r[offset], lo);
    ByteInjective(r[offset + 1], hi);
  }

  /** The test's writes: the four values written at their offsets into nine zero bytes give EXAMPLE. */
  lemma TestVectorsWrite()
    ensures WithUShortLE(WithUShortLE(WithUShortLE(WithUShortLE(
              seq(9, _ => 0 as bv8), 0x0800, 0), 0x0FF0, 2), 0x1234, 5), 0x00FF, 7) == EXAMPLE
  {
    var w0: seq<bv8> := [0, 0, 0, 0, 0, 0, 0, 0, 0];
    var w1: seq<bv8> := [0x00, 0x08, 0, 0, 0, 0, 0, 0, 0];
    var w2: seq<bv8> := [0x00, 0x08, 0xF0, 0x0F, 0, 0, 0, 0, 0];
    var w3: seq<bv8> := [0x00, 0x08, 0xF0, 0x0F, 0, 0x34, 0x12, 0, 0];
    assert seq(9, _ => 0 as bv8) == w0;
    StoresBytes(w0, 0x0800, 0, 0x00, 0x08);
    assert w0[0 := 0x00][1 := 0x08] == w1;
    StoresBytes(w1, 0x0FF0, 2, 0xF0, 0x0F);
    assert w1[2 := 0xF0][3 := 0x0F] == w2;
    StoresBytes(w2, 0x1234, 5, 0x34, 0x12);
    assert w2[5 := 0x34][6 := 0x12] == w3;
    StoresBytes(w3, 0x00FF, 7, 0xFF, 0x00);
    assert w3[7 := 0xFF][8 := 0x00] == EXAMPLE;
  }
}

/**
 Octets and the header fields packed into them (backend/src/ThirdParty/RtpCpp/RtpPacket.hpp:68-100).
 An octet is a number below 256 and every mask and shift of the source is written as the arithmetic it
 performs on such a number; the `...IsMask` lemmas prove, for all octets, that the arithmetic is the mask.
 */
module Octets {
  type Byte = x: int | 0 <= x < 0x100
  type U16 = x: int | 0 <= x < 0x1_0000
  type U32 = x: int | 0 <= x < 0x1_0000_0000

  /** What a 16-bit field keeps of a sum. */
  function Wrapped16(x: nat): U16 { x % 0x1_0000 }

  lemma Wrapped16Same(x: nat)
    requires x <= 0xFFFF
    ensures Wrapped16(x) == x
  {
  }

  lemma Wrapped16Rolls(x: nat)
    ensures Wrapped16(x + 0x1_0000) == Wrapped16(x)
  {
  }

  function Bit(on: bool): int { if on then 1 else 0 }

  /** First octet: version, padding bit, extension bit and CSRC count, two, one, one and four bits wide. */
  function Flags(version: int, padded: bool, extended: bool, count: int): (r: Byte)
    requires 0 <= version < 4 && 0 <= count < 16
  {
    64 * version + 32 * Bit(padded) + 16 * Bit(extended) + count
  }

  function Version(b: Byte): int { b / 64 }

  predicate PaddingBit(b: Byte) { b % 64 >= 32 }

  predicate ExtensionBit(b: Byte) { b % 32 >= 16 }

  function Count(b: Byte): (r: Byte)
    ensures r < 16
  {
    b % 16
  }

  function WithVersion2(b: Byte): Byte { 128 + b % 64 }

  function WithPaddingBit(b: Byte, on: bool): Byte { b / 64 * 64 + 32 * Bit(on) + b % 32 }

  function WithExtensionBit(b: Byte, on: bool): Byte { b / 32 * 32 + 16 * Bit(on) + b % 16 }

  function WithCount(b: Byte, count: Byte): Byte
    requires count < 16
  {
    b / 16 * 16 + count
  }

  /** Second octet: marker bit and payload type. */
  function MarkerAndType(marked: bool, payloadType: int): Byte
    requires 0 <= payloadType < 128
  {
    128 * Bit(marked) + payloadType
  }

  predicate MarkerBit(b: Byte) { b >= 128 }

  function PayloadType(b: Byte): (r: Byte)
    ensures r < 128
  {
    b % 128
  }

  function WithMarkerBit(b: Byte, on: bool): Byte { b % 128 + 128 * Bit(on) }

  /** Clears the low seven bits and ors the whole argument in: a value of 128 or more also sets bit 7. */
  function WithType(b: Byte, payloadType: Byte): Byte {
    if payloadType < 128 then b / 128 * 128 + payloadType else payloadType
  }

  /** The four fields are read back, whatever the other three are. */
  lemma FlagsFields(version: int, padded: bool, extended: bool, count: int)
    requires 0 <= version < 4 && 0 <= count < 16
    ensures var b := Flags(version, padded, extended, count);
            Version(b) == version && PaddingBit(b) == padded && ExtensionBit(b) == extended && Count(b) == count
  {
  }

  lemma FlagsOfFields(b: Byte)
    ensures Flags(Version(b), PaddingBit(b), ExtensionBit(b), Count(b)) == b
  {
    var r := b % 64;
    var q := if r >= 32 then r - 32 else r;
    assert b % 32 == q;
    assert b % 16 == if q >= 16 then q - 16 else q;
  }

  /** Each setter of the first octet replaces one field and keeps the other three. */
  lemma SetVersion(b: Byte)
    ensures WithVersion2(b) == Flags(2, PaddingBit(b), ExtensionBit(b), Count(b))
  {
    FlagsOfFields(b);
    assert b % 64 == 32 * Bit(PaddingBit(b)) + 16 * Bit(ExtensionBit(b)) + Count(b);
  }

  lemma SetPaddingBit(b: Byte, on: bool)
    ensures WithPaddingBit(b, on) == Flags(Version(b), on, ExtensionBit(b), Count(b))
  {
    FlagsOfFields(b);
    assert b % 32 == 16 * Bit(ExtensionBit(b)) + Count(b);
  }

  lemma SetExtensionBit(b: Byte, on: bool)
    ensures WithExtensionBit(b, on) == Flags(Version(b), PaddingBit(b), on, Count(b))
  {
    FlagsOfFields(b);
    assert b / 32 == 2 * Version(b) + Bit(PaddingBit(b));
  }

  lemma BitAlreadySet(b: Byte)
    requires ExtensionBit(b)
    ensures WithExtensionBit(b, true) == b
  {
    assert b / 16 == b / 32 * 2 + 1;
  }

  lemma SetCount(b: Byte, count: Byte)
    requires count < 16
    ensures WithCount(b, count) == Flags(Version(b), PaddingBit(b), ExtensionBit(b), count)
  {
    FlagsOfFields(b);
  }

  /** Setting one field and then stamping the version keeps the others. */
  lemma StampedFlags(b: Byte, padded: bool, extended: bool, count: int, on: bool, count': int)
    requires 0 <= count < 16 && 0 <= count' < 16
    requires WithVersion2(b) == Flags(2, padded, extended, count)
    ensures PaddingBit(b) == padded && ExtensionBit(b) == extended && Count(b) == count
    ensures WithVersion2(WithPaddingBit(b, on)) == Flags(2, on, extended, count)
    ensures WithVersion2(WithExtensionBit(b, on)) == Flags(2, padded, on, count)
    ensures WithVersion2(WithCount(b, count')) == Flags(2, padded, extended, count')
  {
    SetVersion(b);
    FlagsFields(2, padded, extended, count);
    FlagsFields(2, PaddingBit(b), ExtensionBit(b), Count(b));
    SetPaddingBit(b, on);
    FlagsFields(Version(b), on, extended, count);
    SetVersion(WithPaddingBit(b, on));
    SetExtensionBit(b, on);
    FlagsFields(Version(b), padded, on, count);
    SetVersion(WithExtensionBit(b, on));
    SetCount(b, count');
    FlagsFields(Version(b), padded, extended, count');
    SetVersion(WithCount(b, count'));
  }

  /** What each mask of the source selects from an octet. */
  lemma Select(x: bv8)
    ensures (x & 0xC0) as int == x as int / 64 * 64 && (x & 0x3F) as int == x as int % 64
    ensures (x & 0xE0) as int == x as int / 32 * 32 && (x & 0x1F) as int == x as int % 32
  {
  }

  lemma SelectNibble(x: bv8)
    ensures (x & 0xF0) as int == x as int / 16 * 16 && (x & 0x0F) as int == x as int % 16
  {
  }

  lemma SelectMarker(x: bv8)
    ensures (x & 0x80) as int == x as int / 128 * 128 && (x & 0x7F) as int == x as int % 128
  {
  }

  /** Octets without a common bit are ored by adding them. */
  lemma OrIsSum(high: bv8, low: bv8, bit: bv8)
    requires high & bit == 0 && low & bit == 0 && high & low == 0
    requires bit == 0 || bit == 16 || bit == 32
    requires high & 0x0F == 0 && low < 0x40
    ensures (high | low | bit) as int == high as int + low as int + bit as int
  {
    if bit == 0 {
      assert high | low | bit == high + low;
    } else if bit == 16 {
      assert high | low | bit == high + low + 16;
    } else {
      assert high | low | bit == high + low + 32;
    }
  }

  lemma WithPaddingBitIsMask(x: bv8, on: bool)
    ensures ((x & !0x20) | (((if on then 1 else 0) << 5) & 0x20)) as int == WithPaddingBit(x as int, on)
  {
    var bit: bv8 := if on then 0x20 else 0;
    Select(x);
    OrIsSum(x & 0xC0, x & 0x1F, bit);
    assert (x & !0x20) | bit == (x & 0xC0) | (x & 0x1F) | bit;
  }

  lemma WithExtensionBitIsMask(x: bv8, on: bool)
    ensures ((x & !0x10) | (((if on then 1 else 0) << 4) & 0x10)) as int == WithExtensionBit(x as int, on)
  {
    var bit: bv8 := if on then 0x10 else 0;
    Select(x);
    SelectNibble(x);
    OrIsSum(x & 0xE0, x & 0x0F, bit);
    assert (x & !0x10) | bit == (x & 0xE0) | (x & 0x0F) | bit;
  }

  lemma WithCountIsMask(x: bv8, count: bv8)
    requires count < 16
    ensures ((x & !0x0F) | (count & 0x0F)) as int == WithCount(x as int, count as int)
    ensures (x & 0x0F) as int == Count(x as int)
  {
    SelectNibble(x);
    OrIsSum(x & 0xF0, count, 0);
    assert (x & !0x0F) | (count & 0x0F) == (x & 0xF0) | count | 0;
  }

  lemma WithVersion2IsMask(x: bv8)
    ensures ((x & !0xC0) | (2 << 6)) as int == WithVersion2(x as int)
  {
    Select(x);
    OrIsSum(0x80, x & 0x3F, 0);
    assert (x & !0xC0) | (2 << 6) == 0x80 | (x & 0x3F) | 0;
  }

  lemma WithMarkerBitIsMask(x: bv8, on: bool)
    ensures ((x & !0x80) | (((if on then 1 else 0) << 7) & 0x80)) as int == WithMarkerBit(x as int, on)
  {
    SelectMarker(x);
    assert (x & !0x80) | 0x80 == (x & 0x7F) + 0x80;
  }

  lemma WithTypeIsMask(x: bv8, payloadType: bv8)
    ensures ((x & !0x7F) | payloadType) as int == WithType(x as int, payloadType as int)
    ensures (x & 0x7F) as int == PayloadType(x as int)
  {
    SelectMarker(x);
    if payloadType < 128 {
      assert (x & !0x7F) | payloadType == (x & 0x80) + payloadType;
    } else {
      assert (x & !0x7F) | payloadType == payloadType;
    }
  }

  lemma BitTests(x: bv8)
    ensures ((x & 0xC0) >> 6) as int == Version(x as int)
    ensures (x & 0x20 != 0) == PaddingBit(x as int)
    ensures (x & 0x10 != 0) == ExtensionBit(x as int)
    ensures (x >> 7 != 0) == MarkerBit(x as int)
  {
    Select(x);
    assert x & 0x20 != 0 <==> x & 0x3F >= 32;
    assert x & 0x10 != 0 <==> x & 0x1F >= 16;
  }
}

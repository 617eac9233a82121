/** Bytes and the fixed-width integer packing (`struct.pack`/`struct.unpack`) the camera uses. */
module Bytes {

  type byte = x: int | 0 <= x < 0x100
  type uint16 = x: int | 0 <= x < 0x1_0000
  type bytes = seq<byte>

  /** Little-endian reading of a two-byte value (`struct.unpack('<H', b)`). */
  function UnpackU16(b: bytes): uint16
    requires |b| == 2
  {
    b[0] as int + 0x100 * (b[1] as int)
  }

  /** Little-endian writing of a 16-bit value (`struct.pack('<H', v)`): low byte first. */
  function PackU16(v: uint16): (b: bytes)
    ensures |b| == 2
    ensures UnpackU16(b) == v
    ensures b[0] == v % 0x100
  {
    [v % 0x100, v / 0x100]
  }

  /** Unpacking then packing gives back the same two bytes: the 16-bit codec is a bijection. */
  lemma PackUnpack(b: bytes)
    requires |b| == 2
    ensures PackU16(UnpackU16(b)) == b
  {
    var v := UnpackU16(b);
    assert v / 0x100 == b[1];
  }
}

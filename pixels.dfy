/** Packed ARGB pixels, as the filters see them: one 32-bit word holding
    alpha in bits 24..31, red in 16..23, green in 8..15 and blue in 0..7. */
module Pixels {

  /** The bit pattern of a Java `int` pixel. */
  type Pixel = bv32

  /** One 8-bit colour channel. */
  type Byte = bv8

  datatype Channel = Alpha | Red | Green | Blue

  /** Bit position of a channel's lowest bit inside the packed word. */
  function Offset(c: Channel): bv32
  {
    match c
    case Alpha => 24
    case Red => 16
    case Green => 8
    case Blue => 0
  }

  /** `(p >> Offset(c)) & 0xff`. Java's `>>` shifts the sign bit in while
      Dafny's shifts zeros in; the mask keeps only bits the two agree on. */
  function Component(p: Pixel, c: Channel): Byte
  {
    ((p >> Offset(c)) & 0xFF) as Byte
  }

  /** The channel as the `int` the filters compute with. */
  function Level(p: Pixel, c: Channel): (v: int)
    ensures 0 <= v < 256
  {
    Component(p, c) as int
  }

  /** `(a << 24) | (r << 16) | (g << 8) | b` on channel values in 0..255. */
  function Pack(a: Byte, r: Byte, g: Byte, b: Byte): Pixel
  {
    ((a as bv32) << 24) | ((r as bv32) << 16) | ((g as bv32) << 8) | (b as bv32)
  }

  /** Unpacking a packed pixel gives back each channel unchanged. */
  lemma UnpackPack(a: Byte, r: Byte, g: Byte, b: Byte)
    ensures Component(Pack(a, r, g, b), Alpha) == a
    ensures Component(Pack(a, r, g, b), Red) == r
    ensures Component(Pack(a, r, g, b), Green) == g
    ensures Component(Pack(a, r, g, b), Blue) == b
  {
  }

  /** Repacking the four channels of a pixel gives back the pixel, bit for bit. */
  lemma PackUnpack(p: Pixel)
    ensures Pack(Component(p, Alpha), Component(p, Red), Component(p, Green), Component(p, Blue)) == p
  {
  }

  /** A level cast back to a byte is the channel it came from. */
  lemma LevelAsByte(p: Pixel, c: Channel)
    ensures Level(p, c) as Byte == Component(p, c)
  {
  }

  /** A level in `[0, 255]` cast to a byte and back is itself. */
  lemma ByteRoundTrip(x: int)
    requires 0 <= x < 256
    ensures (x as Byte) as int == x
  {
    assert x % 256 == x;
  }
}

/**
 The in-memory pixel buffers that the image adapter produces and consumes:
 a tagged union with one variant per pixel layout, and the 2D texture that
 pairs it with a width and a height.
 */
module Texture {

  /** An unsigned 8-bit channel value (Rust `u8`). */
  type Byte = x: int | 0 <= x < 0x100

  /** An unsigned 32-bit dimension (Rust `u32`). */
  type U32 = x: int | 0 <= x < 0x1_0000_0000

  /** The IEEE-754 bit pattern of a 32-bit float; float values are not interpreted here. */
  type F32Bits = bv32

  /** Fixed-arity pixel tuples (Rust `[u8; 2]`, `[u8; 3]`, `[u8; 4]`, `[f32; 3]`). */
  type Rg = p: seq<Byte> | |p| == 2 witness [0, 0]
  type Rgb = p: seq<Byte> | |p| == 3 witness [0, 0, 0]
  type Rgba = p: seq<Byte> | |p| == 4 witness [0, 0, 0, 0]
  type RgbF32 = p: seq<F32Bits> | |p| == 3 witness [0, 0, 0]

  /** Pixel data, one variant per layout, row-major. */
  datatype TextureData =
    | RU8(r: seq<Byte>)
    | RgU8(rg: seq<Rg>)
    | RgbU8(rgb: seq<Rgb>)
    | RgbaU8(rgba: seq<Rgba>)
    | RgbF32(rgbF32: seq<RgbF32>)

  /** A 2D texture: its pixel data and its dimensions in pixels. */
  datatype Texture2D = Texture2D(data: TextureData, width: U32, height: U32)

  /** The number of pixel tuples the data holds, whatever its layout. */
  function PixelCount(data: TextureData): nat
  {
    match data
    case RU8(p) => |p|
    case RgU8(p) => |p|
    case RgbU8(p) => |p|
    case RgbaU8(p) => |p|
    case RgbF32(p) => |p|
  }

  /** The number of channels of one pixel tuple of the layout. */
  function Channels(data: TextureData): nat
  {
    match data
    case RU8(_) => 1
    case RgU8(_) => 2
    case RgbU8(_) => 3
    case RgbaU8(_) => 4
    case RgbF32(_) => 3
  }

  /** A texture holds exactly one tuple per pixel. */
  predicate WellSized(tex: Texture2D)
  {
    PixelCount(tex.data) == tex.width * tex.height
  }

  /** The 8-bit layouts' pixels as byte tuples; a single-channel pixel is a one-byte tuple. */
  function U8Tuples(data: TextureData): (r: seq<seq<Byte>>)
    requires !data.RgbF32?
    ensures |r| == PixelCount(data)
    ensures forall i :: 0 <= i < |r| ==> |r[i]| == Channels(data)
  {
    match data
    case RU8(p) => seq(|p|, i requires 0 <= i < |p| => [p[i]])
    case RgU8(p) => p
    case RgbU8(p) => p
    case RgbaU8(p) => p
  }
}

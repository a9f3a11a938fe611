// Data model of the box-blur library: 8-bit channel values, the interleaved
// pixel, the planar image, and the row-major shape every blur relies on.
module Image {

  /** An unsigned 8-bit channel value (Rust `u8`). */
  newtype uint8 = x: int | 0 <= x < 0x100

  /** The unsigned 32-bit accumulator the kernels sum in (Rust `u32`). */
  newtype uint32 = x: int | 0 <= x < 0x1_0000_0000

  /** One interleaved pixel: three channels side by side. */
  datatype Pixel = Pixel(r: uint8, g: uint8, b: uint8)
  {
    /** The value of one channel of this pixel. */
    function Get(ch: Channel): uint8
    {
      match ch
      case Red => r
      case Green => g
      case Blue => b
    }
  }

  /** Names the three channels, so that one statement can speak of each of them. */
  datatype Channel = Red | Green | Blue

  /** A planar (structure-of-arrays) image: one row-major buffer per channel. */
  datatype ImageSoA = ImageSoA(width: nat, height: nat, r: seq<uint8>, g: seq<uint8>, b: seq<uint8>)
  {
    /** The three buffers are index-aligned and each holds width*height values. */
    predicate Valid()
    {
      ValidShape(|r|, width, height) && |g| == |r| && |b| == |r|
    }

    /** The buffer of one channel. */
    function Plane(ch: Channel): seq<uint8>
    {
      match ch
      case Red => r
      case Green => g
      case Blue => b
    }
  }

  /**
   * A buffer of `len` values is a row-major width x height raster. Width and
   * height of at least one rule out the division by zero and the `height - 1`
   * underflow of the machine arithmetic.
   */
  predicate ValidShape(len: nat, width: nat, height: nat)
  {
    width >= 1 && height >= 1 && len == width * height
  }

  /** The buffer of one channel of an interleaved image, index by index. */
  function Plane(image: seq<Pixel>, ch: Channel): seq<uint8>
  {
    seq(|image|, k requires 0 <= k < |image| => image[k].Get(ch))
  }
}

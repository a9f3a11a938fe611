// The blur operations of the library. Each builds its output by appending one
// value per input index, as the library pushes onto a fresh vector, and is
// proved to compute the matching rule of module Kernel.
module Blur {
  import opened Image
  import opened Kernel

  /**
   * Direct 3x3 blur of an interleaved image: border pixels are copied, every
   * interior pixel gets the truncated average of its nine neighbours, channel
   * by channel, summed in 32 bits.
   */
  method BlurNaive(image: seq<Pixel>, width: nat, height: nat) returns (blurred: seq<Pixel>)
    requires ValidShape(|image|, width, height)
    ensures blurred == NaiveBox3x3(image, width, height)
  {
    blurred := [];
    for i := 0 to |image|
      invariant |blurred| == i
      invariant forall k :: 0 <= k < i ==> blurred[k] == NaiveAt(image, width, height, k)
    {
      var pxl := image[i];
      if i < width || i >= width * (height - 1) || i % width == 0 || (i + 1) % width == 0 {
        blurred := blurred + [pxl];
      } else {
        var p := BlurInteriorPixel(image, width, height, i);
        blurred := blurred + [p];
      }
    }
  }

  /**
   * The interior branch of BlurNaive: each channel's nine neighbours summed in
   * 32 bits, divided by nine and narrowed to 8 bits.
   */
  method BlurInteriorPixel(image: seq<Pixel>, width: nat, height: nat, i: nat) returns (p: Pixel)
    requires ValidShape(|image|, width, height) && i < |image| && !IsBorder(i, width, height)
    ensures p == NaiveAt(image, width, height, i)
  {
    InteriorInBounds(i, width, height);
    var rSum := image[i].r as uint32
      + image[i - 1].r as uint32
      + image[i + 1].r as uint32
      + image[i - width].r as uint32
      + image[i - width - 1].r as uint32
      + image[i - width + 1].r as uint32
      + image[i + width].r as uint32
      + image[i + width - 1].r as uint32
      + image[i + width + 1].r as uint32;
    var r := (rSum / 9) as uint8;

    var gSum := image[i].g as uint32
      + image[i - 1].g as uint32
      + image[i + 1].g as uint32
      + image[i - width].g as uint32
      + image[i - width - 1].g as uint32
      + image[i - width + 1].g as uint32
      + image[i + width].g as uint32
      + image[i + width - 1].g as uint32
      + image[i + width + 1].g as uint32;
    var g := (gSum / 9) as uint8;

    var bSum := image[i].b as uint32
      + image[i - 1].b as uint32
      + image[i + 1].b as uint32
      + image[i - width].b as uint32
      + image[i - width - 1].b as uint32
      + image[i - width + 1].b as uint32
      + image[i + width].b as uint32
      + image[i + width - 1].b as uint32
      + image[i + width + 1].b as uint32;
    var b := (bSum / 9) as uint8;

    NaiveInteriorPixel(image, width, height, i, r, g, b);
    p := Pixel(r, g, b);
  }

  /** Three channel averages computed as BlurNaive does make up the rule's interior pixel. */
  lemma NaiveInteriorPixel(image: seq<Pixel>, width: nat, height: nat, i: nat, r: uint8, g: uint8, b: uint8)
    requires ValidShape(|image|, width, height) && i < |image| && !IsBorder(i, width, height)
    requires width + 1 <= i && i + width + 1 < |image|
    requires r as int == ChannelSum(image, width, i, Red) / 9
    requires g as int == ChannelSum(image, width, i, Green) / 9
    requires b as int == ChannelSum(image, width, i, Blue) / 9
    ensures Pixel(r, g, b) == NaiveAt(image, width, height, i)
  {
    NaiveRule(image, width, height, i, Red);
    NaiveRule(image, width, height, i, Green);
    NaiveRule(image, width, height, i, Blue);
    assert NaiveAt(image, width, height, i) == NaiveBox3x3(image, width, height)[i];
  }

  /**
   * Direct 3x3 blur of one channel buffer of a planar image: border values are
   * copied, every interior value becomes the truncated average of its nine
   * neighbours, summed in 32 bits.
   */
  method BlurPlane(channel: seq<uint8>, width: nat, height: nat) returns (blurred: seq<uint8>)
    requires ValidShape(|channel|, width, height)
    ensures blurred == Box3x3(channel, width, height)
  {
    blurred := [];
    for i := 0 to |channel|
      invariant |blurred| == i
      invariant forall k :: 0 <= k < i ==> blurred[k] == Box3x3At(channel, width, height, k)
    {
      var val := channel[i];
      if i < width || i >= width * (height - 1) || i % width == 0 || (i + 1) % width == 0 {
        blurred := blurred + [val];
      } else {
        var v := BlurInteriorValue(channel, width, height, i);
        blurred := blurred + [v];
      }
    }
  }

  /**
   * The interior branch of one channel loop of blur_cache_optimized: the nine
   * neighbours summed in 32 bits, divided by nine and narrowed to 8 bits.
   */
  method BlurInteriorValue(channel: seq<uint8>, width: nat, height: nat, i: nat) returns (v: uint8)
    requires ValidShape(|channel|, width, height) && i < |channel| && !IsBorder(i, width, height)
    ensures v == Box3x3At(channel, width, height, i)
  {
    InteriorInBounds(i, width, height);
    var sum := channel[i] as uint32
      + channel[i - 1] as uint32
      + channel[i + 1] as uint32
      + channel[i - width] as uint32
      + channel[i - width - 1] as uint32
      + channel[i - width + 1] as uint32
      + channel[i + width] as uint32
      + channel[i + width - 1] as uint32
      + channel[i + width + 1] as uint32;
    v := (sum / 9) as uint8;
    SumOfNine(Neighbourhood3x3(channel, width, i));
  }

  /**
   * Direct 3x3 blur of a planar image: each channel buffer is blurred in a pass
   * of its own; width and height are kept.
   */
  method BlurCacheOptimized(image: ImageSoA) returns (blurred: ImageSoA)
    requires image.Valid()
    ensures blurred.Valid()
    ensures blurred.width == image.width && blurred.height == image.height
    ensures blurred.r == Box3x3(image.r, image.width, image.height)
    ensures blurred.g == Box3x3(image.g, image.width, image.height)
    ensures blurred.b == Box3x3(image.b, image.width, image.height)
  {
    var width := image.width;
    var height := image.height;
    var rsBlurred := BlurPlane(image.r, width, height);
    var gsBlurred := BlurPlane(image.g, width, height);
    var bsBlurred := BlurPlane(image.b, width, height);
    blurred := ImageSoA(width, height, rsBlurred, gsBlurred, bsBlurred);
  }

  /**
   * Horizontal 1x3 pass: values in the left and right columns are copied, every
   * other value becomes the truncated average of itself and its two
   * neighbours in the row. The height is not used.
   */
  method BlurHorizontal(channel: seq<uint8>, width: nat, height: nat) returns (chan: seq<uint8>)
    requires width >= 1 && HorizontalFits(|channel|, width)
    ensures chan == HorizontalPass(channel, width)
  {
    chan := [];
    for i := 0 to |channel|
      invariant |chan| == i
      invariant forall k :: 0 <= k < i ==> chan[k] == HorizontalAt(channel, width, k)
    {
      var val := channel[i];
      if i % width == 0 || (i + 1) % width == 0 {
        chan := chan + [val];
      } else {
        HorizontalInteriorInBounds(i, width, |channel|);
        var chanSum := channel[i] as uint32 + channel[i - 1] as uint32 + channel[i + 1] as uint32;
        var ch := (chanSum / 3) as uint8;
        SumOfThree([channel[i], channel[i - 1], channel[i + 1]]);
        chan := chan + [ch];
      }
    }
  }

  /**
   * Vertical 3x1 pass: values in the top and bottom rows are copied, every
   * other value becomes the truncated average of itself and its two
   * neighbours in the column.
   */
  method BlurVertical(blurredHorizontal: seq<uint8>, width: nat, height: nat) returns (chan: seq<uint8>)
    requires ValidShape(|blurredHorizontal|, width, height)
    ensures chan == VerticalPass(blurredHorizontal, width, height)
  {
    chan := [];
    for i := 0 to |blurredHorizontal|
      invariant |chan| == i
      invariant forall k :: 0 <= k < i ==> chan[k] == VerticalAt(blurredHorizontal, width, height, k)
    {
      var val := blurredHorizontal[i];
      if i < width || i >= width * (height - 1) {
        chan := chan + [val];
      } else {
        VerticalInteriorInBounds(i, width, height);
        var chanSum := blurredHorizontal[i] as uint32
          + blurredHorizontal[i - width] as uint32
          + blurredHorizontal[i + width] as uint32;
        var ch := (chanSum / 3) as uint8;
        SumOfThree([blurredHorizontal[i], blurredHorizontal[i - width], blurredHorizontal[i + width]]);
        chan := chan + [ch];
      }
    }
  }

  /**
   * Separable blur of a planar image: every channel goes through the
   * horizontal pass and then the vertical pass; width and height are kept.
   */
  method BlurSeparable(image: ImageSoA) returns (blurred: ImageSoA)
    requires image.Valid()
    ensures blurred.Valid()
    ensures blurred.width == image.width && blurred.height == image.height
    ensures blurred.r == Separable(image.r, image.width, image.height)
    ensures blurred.g == Separable(image.g, image.width, image.height)
    ensures blurred.b == Separable(image.b, image.width, image.height)
  {
    var width := image.width;
    var height := image.height;
    ShapeFitsHorizontally(|image.r|, width, height);
    var redHorizontal := BlurHorizontal(image.r, width, height);
    var redBlurred := BlurVertical(redHorizontal, width, height);
    var greenHorizontal := BlurHorizontal(image.g, width, height);
    var greenBlurred := BlurVertical(greenHorizontal, width, height);
    var blueHorizontal := BlurHorizontal(image.b, width, height);
    var blueBlurred := BlurVertical(blueHorizontal, width, height);
    blurred := ImageSoA(width, height, redBlurred, greenBlurred, blueBlurred);
  }

  /**
   * The horizontal 1x3 pass again, without a height argument; it computes the
   * same function as BlurHorizontal.
   */
  method BlurHorizontalReplicate(chan: seq<uint8>, width: nat) returns (res: seq<uint8>)
    requires width >= 1 && HorizontalFits(|chan|, width)
    ensures res == HorizontalPass(chan, width)
  {
    res := [];
    for i := 0 to |chan|
      invariant |res| == i
      invariant forall k :: 0 <= k < i ==> res[k] == HorizontalAt(chan, width, k)
    {
      var pxl := chan[i];
      if i % width == 0 || (i + 1) % width == 0 {
        res := res + [pxl];
      } else {
        HorizontalInteriorInBounds(i, width, |chan|);
        var chSum := chan[i] as uint32 + chan[i - 1] as uint32 + chan[i + 1] as uint32;
        var ch := (chSum / 3) as uint8;
        SumOfThree([chan[i], chan[i - 1], chan[i + 1]]);
        res := res + [ch];
      }
    }
  }
}

// The edge rules, the truncating averages and the blur rules of the library as
// functions of the input buffer. The methods in module Blur are proved to
// compute exactly these functions; the lemmas here state what the rules promise.
module Kernel {
  import opened Image

  // ---------------------------------------------------------------------
  // Edge classification
  // ---------------------------------------------------------------------

  /** Left or right column: the border of the horizontal 1x3 pass. */
  predicate IsHorizontalBorder(i: nat, width: nat)
    requires width >= 1
  {
    i % width == 0 || (i + 1) % width == 0
  }

  /** Top or bottom row: the border of the vertical 3x1 pass. */
  predicate IsVerticalBorder(i: nat, width: nat, height: nat)
  {
    i < width || i >= width * (height - 1)
  }

  /** The border of the full 3x3 kernel: top row, bottom row, left or right column. */
  predicate IsBorder(i: nat, width: nat, height: nat)
    requires width >= 1
  {
    IsVerticalBorder(i, width, height) || IsHorizontalBorder(i, width)
  }

  /**
   * The last index of a buffer of `len` values is in the left or right column,
   * so the horizontal pass never reads past the end. Every whole raster has
   * this property (ShapeFitsHorizontally).
   */
  predicate HorizontalFits(len: nat, width: nat)
    requires width >= 1
  {
    len == 0 || IsHorizontalBorder(len - 1, width)
  }

  // ---------------------------------------------------------------------
  // Facts about % that the index reasoning needs
  // ---------------------------------------------------------------------

  /** A positive multiple of w is at least w. */
  lemma {:induction false} MulAtLeast(k: int, w: int)
    requires k >= 1 && w > 0
    ensures k * w >= w
  {
    if k > 1 {
      MulAtLeast(k - 1, w);
    }
  }

  /** Quotient and remainder are unique. */
  lemma ModUnique(n: int, w: int, q: int, r: int)
    requires w > 0 && 0 <= r < w && n == q * w + r
    ensures n % w == r
  {
    var q', r' := n / w, n % w;
    assert q' * w + r' == q * w + r;
    if q' < q {
      MulAtLeast(q - q', w);
    } else if q' > q {
      MulAtLeast(q' - q, w);
    }
  }

  /** Moving one row down or up keeps the column. */
  lemma ModAddWidth(x: int, w: int)
    requires w > 0
    ensures (x + w) % w == x % w
  {
    ModUnique(x + w, w, x / w + 1, x % w);
  }

  /** The index just past the last one of a whole raster starts a row. */
  lemma ModMultiple(w: int, h: int)
    requires w > 0
    ensures (w * h) % w == 0
  {
    ModUnique(w * h, w, h, 0);
  }

  // ---------------------------------------------------------------------
  // Neighbour reads stay in bounds
  // ---------------------------------------------------------------------

  /** All nine neighbours of a 3x3-interior index lie inside the raster. */
  lemma InteriorInBounds(i: nat, width: nat, height: nat)
    requires ValidShape(width * height, width, height) && i < width * height
    requires !IsBorder(i, width, height)
    ensures width + 1 <= i && i + width + 1 < width * height
  {
    ModUnique(width, width, 1, 0);
    assert width * (height - 1) + width == width * height;
    ModAddWidth(i + 1, width);
    ModMultiple(width, height);
  }

  /** The two vertical neighbours of a vertical-interior index lie inside the raster. */
  lemma VerticalInteriorInBounds(i: nat, width: nat, height: nat)
    requires ValidShape(width * height, width, height)
    requires !IsVerticalBorder(i, width, height)
    ensures width <= i && i + width < width * height
  {
    assert width * (height - 1) + width == width * height;
  }

  /** The two horizontal neighbours of a horizontal-interior index lie inside the buffer. */
  lemma HorizontalInteriorInBounds(i: nat, width: nat, len: nat)
    requires width >= 1 && HorizontalFits(len, width) && i < len
    requires !IsHorizontalBorder(i, width)
    ensures 1 <= i && i + 1 < len
  {
    ModUnique(0, width, 0, 0);
  }

  /** Every whole raster satisfies the horizontal pass's bound. */
  lemma ShapeFitsHorizontally(len: nat, width: nat, height: nat)
    requires ValidShape(len, width, height)
    ensures HorizontalFits(len, width)
  {
    ModMultiple(width, height);
  }

  // ---------------------------------------------------------------------
  // Sums and the truncating average
  // ---------------------------------------------------------------------

  /** The sum of channel values, in unbounded arithmetic. */
  function Sum(s: seq<uint8>): nat
  {
    if |s| == 0 then 0 else s[0] as nat + Sum(s[1..])
  }

  /** The smallest value. */
  function Min(s: seq<uint8>): (m: uint8)
    requires |s| > 0
    ensures m in s
    ensures forall k :: 0 <= k < |s| ==> m <= s[k]
  {
    if |s| == 1 then s[0]
    else
      var rest := Min(s[1..]);
      if s[0] <= rest then s[0] else rest
  }

  /** The largest value. */
  function Max(s: seq<uint8>): (m: uint8)
    requires |s| > 0
    ensures m in s
    ensures forall k :: 0 <= k < |s| ==> s[k] <= m
  {
    if |s| == 1 then s[0]
    else
      var rest := Max(s[1..]);
      if s[0] >= rest then s[0] else rest
  }

  /** A sum of values between lo and hi lies between |s|*lo and |s|*hi. */
  lemma {:induction false} SumBetween(s: seq<uint8>, lo: int, hi: int)
    requires forall k :: 0 <= k < |s| ==> lo <= s[k] as int <= hi
    ensures |s| * lo <= Sum(s) <= |s| * hi
  {
    if |s| > 0 {
      SumBetween(s[1..], lo, hi);
    }
  }

  /** Truncating division keeps bounds that hold for every part. */
  lemma DivBetween(n: int, d: int, lo: int, hi: int)
    requires d > 0 && d * lo <= n <= d * hi
    ensures lo <= n / d <= hi
  {
    var q := n / d;
    if q > hi {
      MulAtLeast(q - hi, d);
    } else if q < lo {
      MulAtLeast(lo - q, d);
    }
  }

  /**
   * The truncating average of channel values. It lies between the smallest
   * and the largest value averaged, so narrowing it back to 8 bits is exact.
   */
  function Mean(s: seq<uint8>): (m: uint8)
    requires |s| > 0
    ensures Min(s) <= m <= Max(s)
  {
    SumBetween(s, Min(s) as int, Max(s) as int);
    DivBetween(Sum(s), |s|, Min(s) as int, Max(s) as int);
    (Sum(s) / |s|) as uint8
  }

  /** Averaging a run of equal values gives that value back. */
  lemma MeanOfConstant(s: seq<uint8>, v: uint8)
    requires |s| > 0
    requires forall k :: 0 <= k < |s| ==> s[k] == v
    ensures Mean(s) == v
  {
    assert Min(s) == v && Max(s) == v;
  }

  lemma SumDrop(s: seq<uint8>, j: nat)
    requires j < |s|
    ensures Sum(s[j..]) == s[j] as int + Sum(s[j + 1..])
  {
    assert s[j..][1..] == s[j + 1..];
  }

  /** The sum of three values, written out. */
  lemma SumOfThree(s: seq<uint8>)
    requires |s| == 3
    ensures Sum(s) == s[0] as int + s[1] as int + s[2] as int
  {
    SumDrop(s, 0); SumDrop(s, 1); SumDrop(s, 2);
    assert s[0..] == s;
  }

  /** The sum of nine values, written out. */
  lemma SumOfNine(s: seq<uint8>)
    requires |s| == 9
    ensures Sum(s) == s[0] as int + s[1] as int + s[2] as int + s[3] as int + s[4] as int
                    + s[5] as int + s[6] as int + s[7] as int + s[8] as int
  {
    SumDrop(s, 0); SumDrop(s, 1); SumDrop(s, 2); SumDrop(s, 3); SumDrop(s, 4);
    SumDrop(s, 5); SumDrop(s, 6); SumDrop(s, 7); SumDrop(s, 8);
    assert s[0..] == s;
  }

  // ---------------------------------------------------------------------
  // The direct 3x3 blur of one planar channel
  // ---------------------------------------------------------------------

  /** The nine values around index i, in the order the library adds them. */
  function Neighbourhood3x3(c: seq<uint8>, width: nat, i: nat): seq<uint8>
    requires width + 1 <= i && i + width + 1 < |c|
  {
    [c[i], c[i - 1], c[i + 1],
     c[i - width], c[i - width - 1], c[i - width + 1],
     c[i + width], c[i + width - 1], c[i + width + 1]]
  }

  /** Output at index i: border values are copied, interior values are 3x3 averages. */
  function Box3x3At(c: seq<uint8>, width: nat, height: nat, i: nat): uint8
    requires ValidShape(|c|, width, height) && i < |c|
  {
    if IsBorder(i, width, height) then c[i]
    else
      InteriorInBounds(i, width, height);
      Mean(Neighbourhood3x3(c, width, i))
  }

  /** The direct 3x3 blur of a whole channel buffer. */
  function Box3x3(c: seq<uint8>, width: nat, height: nat): seq<uint8>
    requires ValidShape(|c|, width, height)
  {
    seq(|c|, i requires 0 <= i < |c| => Box3x3At(c, width, height, i))
  }

  /**
   * The direct blur, index by index: one output per input, the input copied
   * on the border, and inside the truncated ninth of the nine neighbours' sum.
   */
  lemma Box3x3Rule(c: seq<uint8>, width: nat, height: nat, i: nat)
    requires ValidShape(|c|, width, height) && i < |c|
    ensures |Box3x3(c, width, height)| == |c|
    ensures IsBorder(i, width, height) ==> Box3x3(c, width, height)[i] == c[i]
    ensures !IsBorder(i, width, height) ==>
      width + 1 <= i && i + width + 1 < |c| &&
      Box3x3(c, width, height)[i] as int ==
        (c[i] as int + c[i - 1] as int + c[i + 1] as int
         + c[i - width] as int + c[i - width - 1] as int + c[i - width + 1] as int
         + c[i + width] as int + c[i + width - 1] as int + c[i + width + 1] as int) / 9
  {
    if !IsBorder(i, width, height) {
      InteriorInBounds(i, width, height);
      SumOfNine(Neighbourhood3x3(c, width, i));
    }
  }

  /** In a raster at most two pixels wide or tall every index is on the border. */
  lemma NarrowIsBorder(i: nat, width: nat, height: nat)
    requires width >= 1 && height >= 1 && (width <= 2 || height <= 2)
    ensures IsBorder(i, width, height)
  {
    if height <= 2 {
      assert width * (height - 1) <= width;
    }
  }

  /** A raster at most two pixels wide or tall has no interior: the blur is a copy. */
  lemma NarrowImageUnchanged(c: seq<uint8>, width: nat, height: nat)
    requires ValidShape(|c|, width, height) && (width <= 2 || height <= 2)
    ensures Box3x3(c, width, height) == c
  {
    forall i | 0 <= i < |c| ensures Box3x3(c, width, height)[i] == c[i] {
      NarrowIsBorder(i, width, height);
    }
  }

  /** Around an interior index of a constant channel, the average is that constant. */
  lemma Box3x3UniformAt(c: seq<uint8>, width: nat, height: nat, v: uint8, i: nat)
    requires ValidShape(|c|, width, height) && i < |c|
    requires forall k :: 0 <= k < |c| ==> c[k] == v
    ensures Box3x3At(c, width, height, i) == v
  {
    if !IsBorder(i, width, height) {
      InteriorInBounds(i, width, height);
      var n := Neighbourhood3x3(c, width, i);
      assert forall k :: 0 <= k < |n| ==> n[k] == v;
      MeanOfConstant(n, v);
    }
  }

  /** A channel of one constant value is left as it is. */
  lemma Box3x3Uniform(c: seq<uint8>, width: nat, height: nat, v: uint8)
    requires ValidShape(|c|, width, height)
    requires forall k :: 0 <= k < |c| ==> c[k] == v
    ensures Box3x3(c, width, height) == c
  {
    forall i | 0 <= i < |c| ensures Box3x3(c, width, height)[i] == c[i] {
      Box3x3UniformAt(c, width, height, v, i);
    }
  }

  // ---------------------------------------------------------------------
  // The direct 3x3 blur of an interleaved image
  // ---------------------------------------------------------------------

  /** One channel of the nine pixels around index i, read field by field. */
  function PixelNeighbourhood(image: seq<Pixel>, width: nat, i: nat, ch: Channel): seq<uint8>
    requires width + 1 <= i && i + width + 1 < |image|
  {
    [image[i].Get(ch), image[i - 1].Get(ch), image[i + 1].Get(ch),
     image[i - width].Get(ch), image[i - width - 1].Get(ch), image[i - width + 1].Get(ch),
     image[i + width].Get(ch), image[i + width - 1].Get(ch), image[i + width + 1].Get(ch)]
  }

  /** Output pixel at index i: border pixels are copied, interior ones averaged per channel. */
  function NaiveAt(image: seq<Pixel>, width: nat, height: nat, i: nat): Pixel
    requires ValidShape(|image|, width, height) && i < |image|
  {
    if IsBorder(i, width, height) then image[i]
    else
      InteriorInBounds(i, width, height);
      Pixel(Mean(PixelNeighbourhood(image, width, i, Red)),
            Mean(PixelNeighbourhood(image, width, i, Green)),
            Mean(PixelNeighbourhood(image, width, i, Blue)))
  }

  /** The nine-term sum of one channel around an interior index, in the library's order. */
  function ChannelSum(image: seq<Pixel>, width: nat, i: nat, ch: Channel): int
    requires width + 1 <= i && i + width + 1 < |image|
  {
    image[i].Get(ch) as int + image[i - 1].Get(ch) as int + image[i + 1].Get(ch) as int
    + image[i - width].Get(ch) as int + image[i - width - 1].Get(ch) as int
    + image[i - width + 1].Get(ch) as int + image[i + width].Get(ch) as int
    + image[i + width - 1].Get(ch) as int + image[i + width + 1].Get(ch) as int
  }

  /** The direct 3x3 blur of a whole interleaved image. */
  function NaiveBox3x3(image: seq<Pixel>, width: nat, height: nat): seq<Pixel>
    requires ValidShape(|image|, width, height)
  {
    seq(|image|, i requires 0 <= i < |image| => NaiveAt(image, width, height, i))
  }

  /**
   * The interleaved blur, index by index: one output pixel per input pixel,
   * border pixels copied whole, and inside each channel the truncated ninth
   * of that channel's sum over the nine neighbours.
   */
  lemma NaiveRule(image: seq<Pixel>, width: nat, height: nat, i: nat, ch: Channel)
    requires ValidShape(|image|, width, height) && i < |image|
    ensures |NaiveBox3x3(image, width, height)| == |image|
    ensures IsBorder(i, width, height) ==> NaiveBox3x3(image, width, height)[i] == image[i]
    ensures !IsBorder(i, width, height) ==>
      width + 1 <= i && i + width + 1 < |image| &&
      NaiveBox3x3(image, width, height)[i].Get(ch) as int == ChannelSum(image, width, i, ch) / 9
  {
    if !IsBorder(i, width, height) {
      InteriorInBounds(i, width, height);
      SumOfNine(PixelNeighbourhood(image, width, i, ch));
      match ch
      case Red =>
      case Green =>
      case Blue =>
    }
  }

  /** At one index, one channel of the interleaved rule is the planar rule for that channel. */
  lemma NaiveAtChannel(image: seq<Pixel>, width: nat, height: nat, i: nat, ch: Channel)
    requires ValidShape(|image|, width, height) && i < |image|
    ensures NaiveAt(image, width, height, i).Get(ch) == Box3x3At(Plane(image, ch), width, height, i)
  {
    if !IsBorder(i, width, height) {
      InteriorInBounds(i, width, height);
      var c := Plane(image, ch);
      assert PixelNeighbourhood(image, width, i, ch) == Neighbourhood3x3(c, width, i);
      match ch
      case Red =>
      case Green =>
      case Blue =>
    }
  }

  /**
   * The interleaved and the planar blur agree: each channel of the interleaved
   * result is the planar blur of that channel of the input.
   */
  lemma InterleavedMatchesPlanar(image: seq<Pixel>, width: nat, height: nat, ch: Channel)
    requires ValidShape(|image|, width, height)
    ensures Plane(NaiveBox3x3(image, width, height), ch) == Box3x3(Plane(image, ch), width, height)
  {
    var blurred := NaiveBox3x3(image, width, height);
    forall i | 0 <= i < |image|
      ensures Plane(blurred, ch)[i] == Box3x3(Plane(image, ch), width, height)[i]
    {
      NaiveAtChannel(image, width, height, i, ch);
    }
  }

  /** An image of one constant pixel is left as it is. */
  lemma NaiveUniform(image: seq<Pixel>, width: nat, height: nat, p: Pixel)
    requires ValidShape(|image|, width, height)
    requires forall k :: 0 <= k < |image| ==> image[k] == p
    ensures NaiveBox3x3(image, width, height) == image
  {
    var blurred := NaiveBox3x3(image, width, height);
    forall ch: Channel ensures Plane(blurred, ch) == Plane(image, ch) {
      InterleavedMatchesPlanar(image, width, height, ch);
      Box3x3Uniform(Plane(image, ch), width, height, p.Get(ch));
    }
    forall i | 0 <= i < |image| ensures blurred[i] == image[i] {
      assert Plane(blurred, Red)[i] == Plane(image, Red)[i];
      assert Plane(blurred, Green)[i] == Plane(image, Green)[i];
      assert Plane(blurred, Blue)[i] == Plane(image, Blue)[i];
    }
  }

  // ---------------------------------------------------------------------
  // The single-axis passes and the separable blur
  // ---------------------------------------------------------------------

  /** Horizontal pass at index i: copied in the left and right columns, else a 1x3 average. */
  function HorizontalAt(c: seq<uint8>, width: nat, i: nat): uint8
    requires width >= 1 && HorizontalFits(|c|, width) && i < |c|
  {
    if IsHorizontalBorder(i, width) then c[i]
    else
      HorizontalInteriorInBounds(i, width, |c|);
      Mean([c[i], c[i - 1], c[i + 1]])
  }

  /** The horizontal 1x3 pass over a whole channel buffer. */
  function HorizontalPass(c: seq<uint8>, width: nat): seq<uint8>
    requires width >= 1 && HorizontalFits(|c|, width)
  {
    seq(|c|, i requires 0 <= i < |c| => HorizontalAt(c, width, i))
  }

  /** Vertical pass at index i: copied in the top and bottom rows, else a 3x1 average. */
  function VerticalAt(c: seq<uint8>, width: nat, height: nat, i: nat): uint8
    requires ValidShape(|c|, width, height) && i < |c|
  {
    if IsVerticalBorder(i, width, height) then c[i]
    else
      VerticalInteriorInBounds(i, width, height);
      Mean([c[i], c[i - width], c[i + width]])
  }

  /** The vertical 3x1 pass over a whole channel buffer. */
  function VerticalPass(c: seq<uint8>, width: nat, height: nat): seq<uint8>
    requires ValidShape(|c|, width, height)
  {
    seq(|c|, i requires 0 <= i < |c| => VerticalAt(c, width, height, i))
  }

  /** The separable blur of a channel: the vertical pass over the horizontal pass. */
  function Separable(c: seq<uint8>, width: nat, height: nat): seq<uint8>
    requires ValidShape(|c|, width, height)
  {
    ShapeFitsHorizontally(|c|, width, height);
    VerticalPass(HorizontalPass(c, width), width, height)
  }

  /**
   * The horizontal pass, index by index: one output per input, copied exactly
   * in the left and right columns (whatever the row), else the truncated third
   * of the value and its left and right neighbours.
   */
  lemma HorizontalRule(c: seq<uint8>, width: nat, i: nat)
    requires width >= 1 && HorizontalFits(|c|, width) && i < |c|
    ensures |HorizontalPass(c, width)| == |c|
    ensures IsHorizontalBorder(i, width) ==> HorizontalPass(c, width)[i] == c[i]
    ensures !IsHorizontalBorder(i, width) ==>
      1 <= i && i + 1 < |c| &&
      HorizontalPass(c, width)[i] as int == (c[i] as int + c[i - 1] as int + c[i + 1] as int) / 3
  {
    if !IsHorizontalBorder(i, width) {
      HorizontalInteriorInBounds(i, width, |c|);
      SumOfThree([c[i], c[i - 1], c[i + 1]]);
    }
  }

  /**
   * The vertical pass, index by index: one output per input, copied exactly in
   * the top and bottom rows (whatever the column), else the truncated third of
   * the value and its upper and lower neighbours.
   */
  lemma VerticalRule(c: seq<uint8>, width: nat, height: nat, i: nat)
    requires ValidShape(|c|, width, height) && i < |c|
    ensures |VerticalPass(c, width, height)| == |c|
    ensures IsVerticalBorder(i, width, height) ==> VerticalPass(c, width, height)[i] == c[i]
    ensures !IsVerticalBorder(i, width, height) ==>
      width <= i && i + width < |c| &&
      VerticalPass(c, width, height)[i] as int == (c[i] as int + c[i - width] as int + c[i + width] as int) / 3
  {
    if !IsVerticalBorder(i, width, height) {
      VerticalInteriorInBounds(i, width, height);
      SumOfThree([c[i], c[i - width], c[i + width]]);
    }
  }

  /** A constant channel is left as it is by the horizontal pass. */
  lemma HorizontalUniform(c: seq<uint8>, width: nat, v: uint8)
    requires width >= 1 && HorizontalFits(|c|, width)
    requires forall k :: 0 <= k < |c| ==> c[k] == v
    ensures HorizontalPass(c, width) == c
  {
    forall i | 0 <= i < |c| ensures HorizontalPass(c, width)[i] == c[i] {
      if !IsHorizontalBorder(i, width) {
        HorizontalInteriorInBounds(i, width, |c|);
        MeanOfConstant([c[i], c[i - 1], c[i + 1]], v);
      }
    }
  }

  /** A constant channel is left as it is by the vertical pass. */
  lemma VerticalUniform(c: seq<uint8>, width: nat, height: nat, v: uint8)
    requires ValidShape(|c|, width, height)
    requires forall k :: 0 <= k < |c| ==> c[k] == v
    ensures VerticalPass(c, width, height) == c
  {
    forall i | 0 <= i < |c| ensures VerticalPass(c, width, height)[i] == c[i] {
      if !IsVerticalBorder(i, width, height) {
        VerticalInteriorInBounds(i, width, height);
        MeanOfConstant([c[i], c[i - width], c[i + width]], v);
      }
    }
  }

  /** A channel of one constant value is left as it is by the separable blur. */
  lemma SeparableUniform(c: seq<uint8>, width: nat, height: nat, v: uint8)
    requires ValidShape(|c|, width, height)
    requires forall k :: 0 <= k < |c| ==> c[k] == v
    ensures Separable(c, width, height) == c
  {
    ShapeFitsHorizontally(|c|, width, height);
    HorizontalUniform(c, width, v);
    VerticalUniform(c, width, height, v);
  }

  /** Truncating twice by three never gives more than truncating once by nine. */
  lemma FloorOfFloors(a: nat, b: nat, d: nat)
    ensures (a / 3 + b / 3 + d / 3) / 3 <= (a + b + d) / 9
  {
  }

  /** Rows above and below share the column, so the horizontal border status too. */
  lemma ColumnShift(j: nat, width: nat)
    requires width >= 1
    ensures IsHorizontalBorder(j + width, width) == IsHorizontalBorder(j, width)
  {
    ModAddWidth(j, width);
    ModAddWidth(j + 1, width);
  }

  /**
   * The indices directly above and below a 3x3-interior index are in neither
   * the left nor the right column, so the horizontal pass averages them too.
   */
  lemma InteriorColumn(i: nat, width: nat, height: nat)
    requires ValidShape(width * height, width, height) && i < width * height
    requires !IsBorder(i, width, height)
    ensures width + 1 <= i && i + width + 1 < width * height
    ensures !IsHorizontalBorder(i - width, width) && !IsHorizontalBorder(i + width, width)
  {
    InteriorInBounds(i, width, height);
    ColumnShift(i - width, width);
    ColumnShift(i, width);
  }

  /**
   * At a 3x3-interior index the separable blur is the truncated third of the
   * truncated thirds of the three row sums around it.
   */
  lemma SeparableAtInterior(c: seq<uint8>, width: nat, height: nat, i: nat)
    requires ValidShape(|c|, width, height) && i < |c|
    requires !IsBorder(i, width, height)
    ensures width + 1 <= i && i + width + 1 < |c|
    ensures Separable(c, width, height)[i] as int ==
      ((c[i] as int + c[i - 1] as int + c[i + 1] as int) / 3
       + (c[i - width] as int + c[i - width - 1] as int + c[i - width + 1] as int) / 3
       + (c[i + width] as int + c[i + width - 1] as int + c[i + width + 1] as int) / 3) / 3
  {
    ShapeFitsHorizontally(|c|, width, height);
    InteriorColumn(i, width, height);
    var hp := HorizontalPass(c, width);
    var rowMid := (c[i] as int + c[i - 1] as int + c[i + 1] as int) / 3;
    var rowUp := (c[i - width] as int + c[i - width - 1] as int + c[i - width + 1] as int) / 3;
    var rowDown := (c[i + width] as int + c[i + width - 1] as int + c[i + width + 1] as int) / 3;
    assert hp[i] as int == rowMid by {
      HorizontalRule(c, width, i);
    }
    assert hp[i - width] as int == rowUp by {
      HorizontalRule(c, width, i - width);
    }
    assert hp[i + width] as int == rowDown by {
      HorizontalRule(c, width, i + width);
    }
    assert Separable(c, width, height) == VerticalPass(hp, width, height);
    VerticalRule(hp, width, height, i);
  }

  /**
   * At every 3x3-interior index the separable blur is at most the direct
   * blur: its two truncations can only lose, never gain.
   */
  lemma SeparableAtMostDirect(c: seq<uint8>, width: nat, height: nat, i: nat)
    requires ValidShape(|c|, width, height) && i < |c|
    requires !IsBorder(i, width, height)
    ensures Separable(c, width, height)[i] <= Box3x3(c, width, height)[i]
  {
    SeparableAtInterior(c, width, height, i);
    Box3x3Rule(c, width, height, i);
    FloorOfFloors(c[i] as int + c[i - 1] as int + c[i + 1] as int,
                  c[i - width] as int + c[i - width - 1] as int + c[i - width + 1] as int,
                  c[i + width] as int + c[i + width - 1] as int + c[i + width + 1] as int);
  }
}

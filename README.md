# image-blur in Dafny

A model of the 3×3 box-blur library `src/lib.rs`. The library blurs a raster image in
three ways and compares them:

- `blur_naive` works on an interleaved image: a row-major sequence of `Pixel { r, g, b }`.
- `blur_cache_optimized` works on a planar image `ImageSoA`: one row-major `u8` buffer per
  channel, blurred one buffer after the other.
- `blur_separable` runs a horizontal 1×3 pass (`blur_horizontal`) and then a vertical 3×1
  pass (`blur_vertical`) over every channel.
- `blur_horizontal_replicate` is a second copy of the horizontal pass.

Border pixels are copied. Interior values become the truncated average of their
neighbourhood, summed in `u32` and narrowed to `u8`.

Files:

- `image.dfy` (module `Image`) holds the data model. `uint8` and `uint32` are Rust's `u8` and
  `u32`. `Pixel`, `ImageSoA` and `ValidShape` come next: `width ≥ 1`, `height ≥ 1` and
  `len == width * height`.
- `kernel.dfy` (module `Kernel`) holds the specification, written as functions:
  - the three border rules;
  - `Sum`, `Min`, `Max` and the truncating average `Mean`;
  - the per-index rules `Box3x3At`, `NaiveAt`, `HorizontalAt` and `VerticalAt`;
  - the whole-buffer rules `Box3x3`, `NaiveBox3x3`, `HorizontalPass`, `VerticalPass` and
    `Separable`;
  - the lemmas about them.
- `blur.dfy` (module `Blur`) holds one method per library function. Each one starts from an
  empty sequence and appends one value per input index inside a loop, as the library pushes
  onto a fresh `Vec`. Each is proved to return exactly the matching rule of `Kernel`. The
  sums are computed in `uint32`, so the verifier checks every addition for overflow and
  every `as uint8` narrowing for range.
- `scenarios.dfy` (module `Scenarios`) states the library's test expectations as lemmas.

Indices are unbounded `nat`s. The library's `usize` panics are not modelled. They are a
zero width (`% 0`), a zero height (`height - 1` underflow) and an out-of-range neighbour
read. Instead, preconditions exclude them, and lemmas prove that every neighbour read stays
in bounds under those preconditions.

## Model

| member | source | states |
|---|---|---|
| `Blur.BlurNaive` | src/lib.rs:17-61 | The result is `NaiveBox3x3(image, width, height)`: one pixel per input pixel. Border pixels are copied, and interior pixels get a per-channel truncated ninth of the nine-neighbour `u32` sum. |
| `Blur.NaiveInteriorPixel` | src/lib.rs:33-57 | Three channel averages, each the truncated ninth of that channel's nine-neighbour sum, make up exactly the rule's interior pixel. |
| `Blur.BlurInteriorPixel` | src/lib.rs:24-57 | The interior branch of `blur_naive`: nine `u32` reads per channel, divided by nine and narrowed. It gives exactly the rule's pixel at that index. |
| `Blur.BlurPlane` | src/lib.rs:71-88 | One channel loop of `blur_cache_optimized`. The result is `Box3x3(channel, width, height)`. |
| `Blur.BlurInteriorValue` | src/lib.rs:75-84 | The interior branch of one channel loop: nine `u32` reads, divided by nine and narrowed. It gives exactly the rule's value at that index. |
| `Blur.BlurCacheOptimized` | src/lib.rs:63-135 | Keeps `width` and `height`. Each of r, g and b is the direct 3×3 blur of the same input channel. The result is again a valid planar image. |
| `Blur.BlurHorizontal` | src/lib.rs:138-150 | The result is `HorizontalPass(channel, width)`. The height is not used. |
| `Blur.BlurVertical` | src/lib.rs:152-167 | The result is `VerticalPass(input, width, height)`. |
| `Blur.BlurSeparable` | src/lib.rs:169-183 | Keeps `width` and `height`. Channel k is the vertical pass applied to the horizontal pass of input channel k. |
| `Blur.BlurHorizontalReplicate` | src/lib.rs:279-294 | The result is `HorizontalPass(chan, width)`, the same function that `BlurHorizontal` computes. |
| `Kernel.InteriorInBounds` | src/lib.rs:24-32 | For a non-border index of a valid raster, all nine neighbours `i±1`, `i±width` and `i±width±1` lie in `[0, width*height)`. |
| `Kernel.VerticalInteriorInBounds` | src/lib.rs:159-161 | For an index that is not in the top or bottom row, `i-width` and `i+width` lie in the raster. |
| `Kernel.HorizontalInteriorInBounds` | src/lib.rs:144 | For an index that is not in the left or right column, `i-1` and `i+1` lie in the buffer, given that the buffer's last index is in the left or right column. |
| `Kernel.ShapeFitsHorizontally` | src/lib.rs:172-174 | Every whole `width*height` raster meets the horizontal pass's bound. |
| `Kernel.SumBetween` | src/lib.rs:24-32 | A sum of values in `[lo, hi]` lies in `[n*lo, n*hi]`. So nine `u8` values sum to at most 2295, which fits in `u32`. |
| `Kernel.Mean` | src/lib.rs:33 | The truncating average lies between the smallest and the largest value averaged. Hence the `as u8` narrowing never wraps. |
| `Kernel.MeanOfConstant` | src/lib.rs:220-222 | Averaging equal values returns that value, with no truncation loss. |
| `Kernel.Box3x3Rule` | src/lib.rs:72-84 | The output has the input's length. A border index (top row, bottom row, left or right column) is copied. Any other index gets the truncated ninth of the sum of the nine neighbours. |
| `Kernel.NaiveRule` | src/lib.rs:20-58 | The output has the input's length. A border pixel is copied whole. At an interior pixel, each channel is the truncated ninth of that channel's nine-neighbour sum. |
| `Kernel.NaiveAtChannel` | src/lib.rs:24-33 | At one index, each channel of the interleaved rule equals the planar rule applied to that channel's buffer. |
| `Kernel.InterleavedMatchesPlanar` | src/lib.rs:20-126 | Channel `ch` of the interleaved blur equals the planar blur of channel `ch` of the input, at every index. |
| `Kernel.NarrowIsBorder` | src/lib.rs:72 | In a raster at most two pixels wide or tall, every index satisfies the border test. |
| `Kernel.NarrowImageUnchanged` | src/lib.rs:72 | A raster at most two pixels wide or tall has only border pixels, so the blur returns the input. |
| `Kernel.Box3x3UniformAt` | src/lib.rs:75-84 | In a constant channel, the direct rule gives that constant at every index. |
| `Kernel.Box3x3Uniform` | src/lib.rs:208-223 | A channel that holds one constant value is returned unchanged by the direct blur. |
| `Kernel.NaiveUniform` | src/lib.rs:189-206 | An interleaved image that holds one constant pixel is returned unchanged. |
| `Kernel.HorizontalRule` | src/lib.rs:140-147 | The output has the input's length. Left- and right-column indices are copied, in every row, top and bottom included. Any other index gets `(c[i]+c[i-1]+c[i+1])/3`. |
| `Kernel.VerticalRule` | src/lib.rs:155-164 | The output has the input's length. Top- and bottom-row indices are copied, in every column. Any other index gets `(c[i]+c[i-width]+c[i+width])/3`. |
| `Kernel.HorizontalUniform` | src/lib.rs:140-147 | A constant channel is returned unchanged by the horizontal pass. |
| `Kernel.VerticalUniform` | src/lib.rs:155-164 | A constant channel is returned unchanged by the vertical pass. |
| `Kernel.SeparableUniform` | src/lib.rs:261-276 | A constant channel is returned unchanged by the horizontal pass followed by the vertical pass. |
| `Kernel.InteriorColumn` | src/lib.rs:172 | The indices directly above and below a 3×3-interior index are in neither the left nor the right column. So the horizontal pass has averaged them before the vertical pass reads them. |
| `Kernel.SeparableAtInterior` | src/lib.rs:172 | At a 3×3-interior index, the separable result is the truncated third of the truncated thirds of the three row sums around it. |
| `Kernel.SeparableAtMostDirect` | src/lib.rs:169-174 | At every 3×3-interior index, the separable result is at most the direct 3×3 result, because two truncations can only lose. |
| `Scenarios.NaiveUniformScenario` | src/lib.rs:189-206 | A uniform 512×512 image of (100, 150, 200) gives (100, 150, 200) at index 0 and is returned unchanged. |
| `Scenarios.CacheOptimizedUniformScenario` | src/lib.rs:208-223 | Uniform 512×512 channels of 30, 120 and 76 give 30, 120 and 76 at index 513. |
| `Scenarios.SeparableUniformScenario` | src/lib.rs:261-276 | The same channels give 30, 120 and 76 at index 513 under the separable blur. |
| `Scenarios.HorizontalScenario` | src/lib.rs:225-241 | For `[100×4, 50, 60, 70, 80, 100×4]` with width 4, the horizontal pass gives 100 at index 1 and 60 at index 5. |
| `Scenarios.HorizontalTopRowScenario` | src/lib.rs:243-253 | For `[10, 20, …, 120]` with width 4, index 1 of the top row is blurred horizontally to 20. |
| `Scenarios.HorizontalReplicateScenario` | src/lib.rs:296-304 | For `[30,50,70,90,50,75,10,100,10,10,60,80]` with width 4, the pass gives 45 at index 5 and 50 at index 1. |
| `Scenarios.DirectCentreScenario` | src/lib.rs:71-86 | For the 3×3 channel `[0,2,0, 0,2,0, 0,5,0]`, the direct blur gives 9/9 = 1 at the centre. |
| `Scenarios.SeparableDiffersScenario` | src/lib.rs:169-174 | For the same channel, the separable blur gives 0 at the centre, which differs from the direct blur. The two truncations are kept, not corrected. |

## Left out

- `benches/blur_benchmark.rs`: a timing harness with no behaviour to specify.
- `#[derive(Debug, Clone)]`, printing, and the performance, cache-locality and SIMD remarks (src/lib.rs:137): these are not functional.
- The unfinished test body after the horizontal check (src/lib.rs:255-258): it asserts nothing.
- `usize` overflow of `width * height`, and the panics for `width == 0` (`% 0`) and `height == 0` (`height - 1` underflow): the arithmetic is unbounded, and these inputs are excluded by `ValidShape`.
- Checks on malformed planar images: the library has none. The model puts `ImageSoA.Valid()` in the precondition instead (three buffers of length `width * height`).
- `Blur.BlurHorizontal`, `Blur.BlurHorizontalReplicate`: these require only that the buffer's last index is in the left or right column (`HorizontalFits`). That is exactly what keeps `i + 1` in bounds. Any whole raster meets it.
- `Blur.BlurCacheOptimized`: the library writes three identical loops, one per channel (src/lib.rs:71-126). The model writes that loop once, as `Blur.BlurPlane`, and calls it for r, g and b in the same order.
- `Vec` allocation and `push` are modelled as appending to an immutable sequence. Images are values, so the model cannot express aliasing between input and output, and the library has none.

# Pixel access and size helpers of the Go `resize` package

This project models two parts of the `resize` package in Dafny.

The first is the pixel-access layer of `converter.go`. A converter reads the
colour of the pixel at integer coordinates `(x, y)` from a source image. It
works for any coordinates, because it first clamps them into the image
rectangle, axis by axis. This is border replication: far-out coordinates
read the nearest edge pixel. There is one converter per pixel store:

- the generic image interface;
- 8-bit and 16-bit RGBA;
- 8-bit and 16-bit gray;
- luma/chroma (YCbCr).

Each converter reads bytes at a `PixOffset` into a flat `Pix` buffer. It
widens them to 16-bit channels:

- an 8-bit value `v` becomes `(v<<8)|v`;
- a 16-bit value is stored most significant byte first;
- gray stores report `R = G = B`;
- gray and luma/chroma stores report full alpha.

The second part is the size helpers of `util.go`: `FromWidth`, `FromHeight`
and `Thumbnail`.

## How it is modelled

- `geometry.dfy` (`Geometry`): `Point` and the half-open `Rect` of the Go
  image package.
- `images.dfy` (`Images`): the pixel stores.
  - `Channel` is the 16-bit numerator of a channel (0..0xFFFF). `Color`
    holds four of them.
  - `PackedImage` has one constructor per dense Go image type. Each carries
    `Pix`, `Stride` and `Rect`. `PixOffset` is the image package's formula
    `(y-Min.Y)*Stride + (x-Min.X)*bpp`, with bpp 4, 8, 1 or 2.
  - `WellFormed` says the buffer is well formed: a non-empty rect,
    `Stride >= Dx*bpp`, and `Pix` reaches the last byte of the last row.
  - `ColorAt` is the colour that the image package's own `At(x, y).RGBA()`
    reports for a pixel. It is written arithmetically (`v * 0x101`,
    `hi * 0x100 + lo`). It is the independent reference the fast converters
    are proved against. The image package is not part of this model; only
    the behaviour listed here is restated.
  - `GenericImage` and `YCbCrImage` hold the library calls as function
    values that the model leaves uninterpreted: `At(..).RGBA()`, `YOffset`
    and `COffset`.
- `converter.dfy` (`Converters`):
  - the clamping functions;
  - the bit-level channel formulas, written with `bv16` shifts and `|`
    exactly as in the source;
  - for each `at` method, a specification function (`…Sample`) returning a
    `Color`, and a method (`…At`) that fills a caller-supplied 4-slot array
    like the Go method fills its `*colorArray`;
  - the `converter` interface, as a closed datatype `Converter` that
    dispatches to the six variants.
  `color.YCbCrToRGB` is a parameter of the luma/chroma converter.
- `util.dfy` (`Util`): the size helpers. float32 arithmetic is replaced by
  exact real arithmetic. A float-to-`uint` conversion becomes `.Floor` of a
  non-negative real.
- `arithmetic.dfy` (`Arithmetic`): monotonicity facts about multiplication,
  used by the proofs.

A Go index-out-of-range panic is not modelled as an outcome. Instead, every
converter requires that the bytes it reads lie inside their buffers:
`PixelInBuffer` of the clamped point, or `SamplesInBuffer` for luma/chroma.
`CanSampleWhenWellFormed` proves that a well-formed source meets this for
every `(x, y)`.

## Model

| member | source | states |
|---|---|---|
| `Converters.ReplicateBorder1d` | converter.go:53-61 | An in-range `x` is returned unchanged. For `min < max` the result always lies in `[min, max-1]`. |
| `Converters.ReplicateBorder1dNearest` | converter.go:53-61 | The clamped value is the in-range coordinate nearest to `x`. Every other in-range coordinate is strictly farther: clamping, never wrapping. |
| `Converters.ReplicateBorder1dIdempotent` | converter.go:53-61 | Clamping a clamped value changes nothing (non-empty range). |
| `Converters.ReplicateBorder1dMonotone` | converter.go:53-61 | Clamping is monotone non-decreasing in `x` (non-empty range). |
| `Converters.ReplicateBorder` | converter.go:63-67 | x is clamped against `Min.X/Max.X` and y against `Min.Y/Max.Y`, independently. For a non-empty rect the point lies inside it. A point already inside is unchanged. |
| `Converters.ReplicateBorderNearest` | converter.go:63-67 | On each axis, the clamped point is at least as near to `(x, y)` as any point of the rect. |
| `Converters.ReplicateBorderIdempotent` | converter.go:63-67 | Clamping a clamped point into a non-empty rect changes nothing. |
| `Converters.Replicate8` | converter.go:95-98 | `uint16(v)<<8 OR uint16(v)` equals `v * 257`. Both bytes of the result are `v`. |
| `Converters.Replicate8StrictlyMonotone` | converter.go:95-98 | The 8-to-16-bit widening is strictly increasing. |
| `Converters.Assemble16` | converter.go:108-111 | `uint16(hi)<<8 OR uint16(lo)` equals `hi * 256 + lo`. |
| `Converters.Assemble16Injective` | converter.go:108-111 | The high and low bytes of an assembled channel give back the two stored bytes, so distinct big-endian byte pairs give distinct channels. |
| `Converters.Widen101` | converter.go:152-154 | `uint16(c)*0x101` equals the bit replication `(c<<8) OR c`. |
| `Converters.GenericSample` | converter.go:80-87 | For an in-bounds point, the result is the source's own colour there. Otherwise it is the source's colour at the clamped point. |
| `Converters.GenericAt` | converter.go:80-87 | Fills the four slots with the channels of `GenericSample`. |
| `Converters.RGBASample` | converter.go:93-100 | Channel k is `Pix[i+k] * 257`, where `i` is the offset of the clamped pixel. For a non-empty image it equals the image package's colour at the clamped point. |
| `Converters.RGBAAt` | converter.go:93-100 | Fills the four slots with the channels of `RGBASample`. |
| `Converters.RGBA64Sample` | converter.go:106-113 | Channel k (R, G, B, A, written out one by one) is the big-endian pair `Pix[i+2k]*256 + Pix[i+2k+1]` of the clamped pixel. For a non-empty image it equals the image package's colour there. |
| `Converters.RGBA64At` | converter.go:106-113 | Fills the four slots with the channels of `RGBA64Sample`. |
| `Converters.GraySample` | converter.go:119-127 | `R = G = B = Pix[i] * 257` and alpha is full. For a non-empty image it equals the image package's colour at the clamped point. |
| `Converters.GrayAt` | converter.go:119-127 | Fills the four slots with the channels of `GraySample`. |
| `Converters.Gray16Sample` | converter.go:133-141 | `R = G = B = Pix[i]*256 + Pix[i+1]` and alpha is full. For a non-empty image it equals the image package's colour at the clamped point. |
| `Converters.Gray16At` | converter.go:133-141 | Fills the four slots with the channels of `Gray16Sample`. |
| `Converters.YCbCrSample` | converter.go:147-157 | Alpha is full. Each of R, G, B has both bytes equal to the corresponding byte of the luma/chroma-to-RGB conversion, read at the clamped point's Y and C offsets. |
| `Converters.YCbCrAt` | converter.go:147-157 | Fills the four slots with the channels of `YCbCrSample`. |
| `Converters.Converter.Sample` | converter.go:69-74 | The interface read. Gray, gray16 and luma/chroma variants report full alpha. The gray variants report `R = G = B`. |
| `Converters.Converter.At` | converter.go:72-74 | The interface method fills the four slots with the channels of `Sample`, whichever variant it is. |
| `Converters.CanSampleWhenWellFormed` | converter.go:93-151 | For a well-formed source, every `Pix` (or Y/Cb/Cr) index any converter reads is in bounds, for every `(x, y)`. |
| `Converters.SampleReplicatesBorder` | converter.go:80-157 | Every converter returns at `(x, y)` the same colour as at the clamped point `replicateBorder(x, y)`. |
| `Converters.FastPathMatchesGeneric` | converter.go:80-141 | Over a well-formed dense image, the fast-path converter reads the same colour as the generic converter at every `(x, y)`. |
| `Images.PackedImage.ColorAt` | converter.go:81 | The reference colour the generic path receives from the image package. Gray stores give `R = G = B` with full alpha. Outside the rect the colour channels are zero. |
| `Images.PixOffsetRowMajor` | converter.go:94 | `PixOffset` puts the rect's first pixel at 0. The next pixel in a row is `bpp` further on, and the next row is `Stride` further on. |
| `Images.PixelInBufferWhenWellFormed` | converter.go:94-98 | In a well-formed buffer, every byte of every pixel of the rect is an index of `Pix`. |
| `Images.PixelsDisjoint` | converter.go:94-98 | In a well-formed buffer, distinct pixels occupy disjoint bytes. |
| `Util.ScaleFloor` | util.go:28-29 | The float expression `uint(float32(n) * (float32(m) / float32(d)))`, used here and again at util.go:37-38, is the floor `q` of `n * m / d`, that is `q*d <= n*m < (q+1)*d`. |
| `Util.FromWidth` | util.go:27-30 | The first component is the requested width. The height `h` is the floor of `width * Dy / Dx`, that is `h*Dx <= width*Dy < (h+1)*Dx`. |
| `Util.FromHeight` | util.go:36-39 | The second component is the requested height. The width `w` is the floor of `height * Dx / Dy`, that is `w*Dy <= height*Dx < (w+1)*Dy`. |
| `Util.AspectAtLeastOne` | util.go:46 | The float test `Dx / Dy >= 1` made at util.go:51 holds exactly when `Dx >= Dy` and `Dx > 0`. This covers `Dy = 0`, where the quotient is +Inf (passes) or NaN (fails). For `Dy > 0` it is the exact real comparison. This matches Go's float32 test for extents up to 2^24, where float32 holds both extents exactly. |
| `Util.Thumbnail` | util.go:45-55 | An image that already fits is returned as `(Dx, Dy)`, so it is never enlarged. Otherwise, when `Dx >= Dy` (aspect ≥ 1, which matches the float32 test for extents up to 2^24) the result is `FromWidth(maxWidth)`, and when `Dx < Dy` it is `FromHeight(maxHeight)`. An image of height 0 that does not fit gets `(maxWidth, 0)`. |
| `Util.SizeExamples` | util_test.go:8-33 | `FromWidth(100×200, 100) == (100, 200)`, `FromHeight(100×200, 200) == (100, 200)` and `FromWidth(500000×500000, 10000) == (10000, 10000)`. |
| `Util.ThumbnailExceedsBox` | util.go:51-53 | `Thumbnail` of a 100×50 image into a 1000×10 box returns 1000×500. |
| `Util.FitThumbnail` | util.go:41-55 | The corrected thumbnail. An image that already fits is unchanged. The result always fits the box and never exceeds the image. When resized, it is `FromWidth(maxWidth)` or `FromHeight(maxHeight)`. This includes an image of height 0. |
| `Util.FitThumbnailExample` | util.go:45-55 | The corrected thumbnail of the 100×50 image into 1000×10 is 20×10. |

## Findings

| source | as written | input that shows it | evidently intended | confidence | as-written member | corrected member |
|---|---|---|---|---|---|---|
| util.go:51-54 | A landscape or square image (aspect ≥ 1) that does not fit is always sized by `FromWidth(maxWidth)`, even when the height is the tighter bound. | `Thumbnail(Rect(0,0,100,50), 1000, 10)` returns `(1000, 500)`. The image is enlarged tenfold and is 50 times taller than the box. The float32 arithmetic is exact here: `50/100 = 0.5` and `1000*0.5 = 500`. | The doc comment asks for a size within the maximum width and height that preserves the aspect ratio. So the image should be sized by whichever side is the tighter bound, giving `(20, 10)`. | medium, not executed | `Util.ThumbnailExceedsBox` | `Util.FitThumbnail` |

## Left out

- The float32 normalisation `/ 65535` in every `at` method (converter.go:82-85 and the matching lines of the other methods) is not modelled. A colour slot holds the integer numerator instead, and the gray and luma/chroma alpha `1` is the numerator `0xFFFF`.
- `toLinear` and `toSRGB` (converter.go:28-51) are left out. They are the sRGB transfer functions of IEC 61966-2-1, built on float32 and `math.Pow`, and the converters do not use them.
- The Go image and colour packages are not part of this model. The generic source's `At(..).RGBA()`, `YCbCr.YOffset`/`COffset` (with their subsample-ratio logic) and `color.YCbCrToRGB` are uninterpreted function values. `ColorAt` restates the image package's colour for the four dense types only.
- Converters.YCbCrSample: it is not compared with the generic path, because the library's own YCbCr colour conversion is abstract here.
- Index-out-of-range panics are not modelled as an outcome. Every read is required to be in range instead, and a well-formed buffer is proved to satisfy this. A method that panics halfway has already filled some slots; that partial write is not modelled.
- Go's fixed-width `int` (32 or 64 bits) for coordinates and offsets is modelled as unbounded `int`. Offset overflow in gigantic images is not modelled.
- Util.FromWidth, Util.FromHeight, Util.Thumbnail: float32 rounding is idealised as exact real arithmetic followed by floor (util.go:28-29, 37-38, 46). For ratios that float32 cannot represent exactly, the source may round the derived side differently. Above 2^24 the rounded aspect can reach 1 when `Dx < Dy`, for example 16777219 × 16777220. Go then sizes by width, where the model sizes by height.
- Util.FromWidth, Util.FromHeight, Util.Thumbnail: the derived side is an unbounded `nat`. A value beyond the `uint` range, whose conversion Go leaves implementation-defined, is not modelled.
- Util.FromWidth, Util.FromHeight: a zero divisor is excluded by `requires` (`Dx = 0` for `FromWidth`, `Dy = 0` for `FromHeight`). In Go it makes the scaled side a float infinity or NaN, and converting that to `uint` is implementation-defined. `Util.Thumbnail` accepts `Dy = 0`, because it only compares the infinite or NaN aspect.
- Util.FromWidth, Util.FromHeight, Util.Thumbnail: negative extents are excluded by `requires`, since `image.Rect` never produces them.
- The resampler is not part of this model: `Resize`, interpolation kernels, contribution tables and goroutine scheduling live elsewhere in the package and are not modelled. The choice of converter for a source image is also made in the resampler; `FastPath` only pairs each dense image type with its converter.

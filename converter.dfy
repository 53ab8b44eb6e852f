/** Uniform per-pixel colour reads over the supported pixel stores, with
    border replication: a coordinate outside the image is clamped, axis by
    axis, to the nearest edge pixel. A colour is four 16-bit channel
    numerators (the value before the division by 65535). */
module Converters {
  import opened Geometry
  import opened Images

  /** Distance between two integers. */
  function Dist(a: int, b: int): (d: nat) {
    if a <= b then b - a else a - b
  }

  // ---------------------------------------------------------------------------
  // Border replication

  /** Clamps x into [min, max - 1]; it never wraps. */
  function ReplicateBorder1d(x: int, min: int, max: int): (r: int)
    ensures min <= x < max ==> r == x
    ensures min < max ==> min <= r < max
  {
    if x < min then min
    else if x >= max then max - 1
    else x
  }

  /** The clamped coordinate is the in-range coordinate nearest to x, and no
      other in-range coordinate is as near. */
  lemma ReplicateBorder1dNearest(x: int, min: int, max: int, z: int)
    requires min <= z < max
    ensures Dist(ReplicateBorder1d(x, min, max), x) <= Dist(z, x)
    ensures z != ReplicateBorder1d(x, min, max) ==>
              Dist(ReplicateBorder1d(x, min, max), x) < Dist(z, x)
  {
  }

  /** Clamping a clamped coordinate changes nothing. */
  lemma ReplicateBorder1dIdempotent(x: int, min: int, max: int)
    requires min < max
    ensures ReplicateBorder1d(ReplicateBorder1d(x, min, max), min, max)
            == ReplicateBorder1d(x, min, max)
  {
  }

  /** Clamping preserves the order of coordinates. */
  lemma ReplicateBorder1dMonotone(x: int, y: int, min: int, max: int)
    requires min < max && x <= y
    ensures ReplicateBorder1d(x, min, max) <= ReplicateBorder1d(y, min, max)
  {
  }

  /** Clamps x against the horizontal and y against the vertical extent of
      rect, independently. */
  function ReplicateBorder(x: int, y: int, rect: Rect): (p: Point)
    ensures p.X == ReplicateBorder1d(x, rect.Min.X, rect.Max.X)
    ensures p.Y == ReplicateBorder1d(y, rect.Min.Y, rect.Max.Y)
    ensures !rect.Empty() ==> rect.Contains(p)
    ensures rect.Contains(Point(x, y)) ==> p == Point(x, y)
  {
    Point(ReplicateBorder1d(x, rect.Min.X, rect.Max.X),
          ReplicateBorder1d(y, rect.Min.Y, rect.Max.Y))
  }

  /** Of all points of a non-empty rect, the clamped point is nearest to
      (x, y) on each axis: a far-out coordinate reads the nearest edge. */
  lemma {:induction false} ReplicateBorderNearest(x: int, y: int, rect: Rect, q: Point)
    requires rect.Contains(q)
    ensures Dist(ReplicateBorder(x, y, rect).X, x) <= Dist(q.X, x)
    ensures Dist(ReplicateBorder(x, y, rect).Y, y) <= Dist(q.Y, y)
  {
    ReplicateBorder1dNearest(x, rect.Min.X, rect.Max.X, q.X);
    ReplicateBorder1dNearest(y, rect.Min.Y, rect.Max.Y, q.Y);
  }

  /** Clamping a point already clamped into a non-empty rect changes nothing. */
  lemma ReplicateBorderIdempotent(x: int, y: int, rect: Rect)
    requires !rect.Empty()
    ensures var p := ReplicateBorder(x, y, rect);
            ReplicateBorder(p.X, p.Y, rect) == p
  {
  }

  // ---------------------------------------------------------------------------
  // Channel widening

  /** uint16(v)<<8 | uint16(v): an 8-bit channel copied into both bytes of a
      16-bit channel, so 0 stays 0 and 255 becomes 0xFFFF. */
  function Replicate8(v: bv8): (c: Channel)
    ensures c == v as int * 0x101
    ensures c / 0x100 == v as int && c % 0x100 == v as int
  {
    (((v as bv16) << 8) | (v as bv16)) as int
  }

  /** uint16(hi)<<8 | uint16(lo): a 16-bit channel stored most significant
      byte first. */
  function Assemble16(hi: bv8, lo: bv8): (c: Channel)
    ensures c == hi as int * 0x100 + lo as int
  {
    (((hi as bv16) << 8) | (lo as bv16)) as int
  }

  /** uint16(v)*0x101, the widening the luma/chroma path uses; it agrees
      with the bit replication of Replicate8. */
  function Widen101(v: bv8): (c: Channel)
    ensures c == Replicate8(v)
  {
    ((v as bv16) * 0x101) as int
  }

  /** Bit replication is strictly increasing, so distinct 8-bit values stay
      distinct and keep their order. */
  lemma Replicate8StrictlyMonotone(u: bv8, v: bv8)
    requires u < v
    ensures Replicate8(u) < Replicate8(v)
  {
  }

  /** Both bytes can be read back from an assembled channel, so two byte
      pairs give the same channel only when they are equal. */
  lemma Assemble16Injective(hi: bv8, lo: bv8, hi': bv8, lo': bv8)
    ensures Assemble16(hi, lo) / 0x100 == hi as int && Assemble16(hi, lo) % 0x100 == lo as int
    ensures Assemble16(hi, lo) == Assemble16(hi', lo') ==> hi == hi' && lo == lo'
  {
    Assemble16Bytes(hi, lo);
    Assemble16Bytes(hi', lo');
  }

  /** The high and low bytes of an assembled channel are the two bytes. */
  lemma Assemble16Bytes(hi: bv8, lo: bv8)
    ensures Assemble16(hi, lo) / 0x100 == hi as int
    ensures Assemble16(hi, lo) % 0x100 == lo as int
  {
    var c := Assemble16(hi, lo);
    assert c == hi as int * 0x100 + lo as int;
    assert 0 <= lo as int < 0x100;
  }

  // ---------------------------------------------------------------------------
  // The converters, one spec function and one method per pixel store

  /** Generic path: the colour the source reports at the clamped point. */
  function GenericSample(src: GenericImage, x: int, y: int): (c: Color)
    ensures src.Bounds.Contains(Point(x, y)) ==> c == src.At(x, y)
    ensures var p := ReplicateBorder(x, y, src.Bounds); c == src.At(p.X, p.Y)
  {
    var p := ReplicateBorder(x, y, src.Bounds);
    src.At(p.X, p.Y)
  }

  method GenericAt(src: GenericImage, x: int, y: int, result: array<int>)
    requires result.Length == 4
    modifies result
    ensures result[..] == GenericSample(src, x, y).Channels()
  {
    var p := ReplicateBorder(x, y, src.Bounds);
    var c := src.At(p.X, p.Y);
    result[0] := c.R;
    result[1] := c.G;
    result[2] := c.B;
    result[3] := c.A;
  }

  /** 8-bit RGBA: channel k is byte k of the clamped pixel, bit-replicated. */
  function RGBASample(src: PackedImage, x: int, y: int): (c: Color)
    requires src.RGBA? && src.PixelInBuffer(ReplicateBorder(x, y, src.Rect))
    ensures var i := src.PixOffset(ReplicateBorder(x, y, src.Rect));
            forall k :: 0 <= k < 4 ==> c.Channels()[k] == src.Pix[i + k] as int * 0x101
    ensures !src.Rect.Empty() ==> c == src.ColorAt(ReplicateBorder(x, y, src.Rect))
  {
    var i := src.PixOffset(ReplicateBorder(x, y, src.Rect));
    Color(Replicate8(src.Pix[i + 0]), Replicate8(src.Pix[i + 1]),
          Replicate8(src.Pix[i + 2]), Replicate8(src.Pix[i + 3]))
  }

  method RGBAAt(src: PackedImage, x: int, y: int, result: array<int>)
    requires src.RGBA? && src.PixelInBuffer(ReplicateBorder(x, y, src.Rect))
    requires result.Length == 4
    modifies result
    ensures result[..] == RGBASample(src, x, y).Channels()
  {
    var p := ReplicateBorder(x, y, src.Rect);
    var i := src.PixOffset(p);
    result[0] := Replicate8(src.Pix[i + 0]);
    result[1] := Replicate8(src.Pix[i + 1]);
    result[2] := Replicate8(src.Pix[i + 2]);
    result[3] := Replicate8(src.Pix[i + 3]);
  }

  /** 16-bit RGBA: channel k is the big-endian pair at bytes 2k and 2k + 1
      of the clamped pixel. */
  function RGBA64Sample(src: PackedImage, x: int, y: int): (c: Color)
    requires src.RGBA64? && src.PixelInBuffer(ReplicateBorder(x, y, src.Rect))
    ensures var i := src.PixOffset(ReplicateBorder(x, y, src.Rect));
            c.R == src.Pix[i] as int * 0x100 + src.Pix[i + 1] as int &&
            c.G == src.Pix[i + 2] as int * 0x100 + src.Pix[i + 3] as int &&
            c.B == src.Pix[i + 4] as int * 0x100 + src.Pix[i + 5] as int &&
            c.A == src.Pix[i + 6] as int * 0x100 + src.Pix[i + 7] as int
    ensures !src.Rect.Empty() ==> c == src.ColorAt(ReplicateBorder(x, y, src.Rect))
  {
    var i := src.PixOffset(ReplicateBorder(x, y, src.Rect));
    Color(Assemble16(src.Pix[i + 0], src.Pix[i + 1]), Assemble16(src.Pix[i + 2], src.Pix[i + 3]),
          Assemble16(src.Pix[i + 4], src.Pix[i + 5]), Assemble16(src.Pix[i + 6], src.Pix[i + 7]))
  }

  method RGBA64At(src: PackedImage, x: int, y: int, result: array<int>)
    requires src.RGBA64? && src.PixelInBuffer(ReplicateBorder(x, y, src.Rect))
    requires result.Length == 4
    modifies result
    ensures result[..] == RGBA64Sample(src, x, y).Channels()
  {
    var p := ReplicateBorder(x, y, src.Rect);
    var i := src.PixOffset(p);
    var r := Assemble16(src.Pix[i + 0], src.Pix[i + 1]);
    var g := Assemble16(src.Pix[i + 2], src.Pix[i + 3]);
    var b := Assemble16(src.Pix[i + 4], src.Pix[i + 5]);
    var a := Assemble16(src.Pix[i + 6], src.Pix[i + 7]);
    assert RGBA64Sample(src, x, y) == Color(r, g, b, a);
    result[0], result[1], result[2], result[3] := r, g, b, a;
  }

  /** 8-bit gray: R = G = B = the bit-replicated luma, alpha full. */
  function GraySample(src: PackedImage, x: int, y: int): (c: Color)
    requires src.Gray? && src.PixelInBuffer(ReplicateBorder(x, y, src.Rect))
    ensures c.R == c.G == c.B && c.A == FULL
    ensures c.R == src.Pix[src.PixOffset(ReplicateBorder(x, y, src.Rect))] as int * 0x101
    ensures !src.Rect.Empty() ==> c == src.ColorAt(ReplicateBorder(x, y, src.Rect))
  {
    var i := src.PixOffset(ReplicateBorder(x, y, src.Rect));
    var g := Replicate8(src.Pix[i]);
    Color(g, g, g, FULL)
  }

  method GrayAt(src: PackedImage, x: int, y: int, result: array<int>)
    requires src.Gray? && src.PixelInBuffer(ReplicateBorder(x, y, src.Rect))
    requires result.Length == 4
    modifies result
    ensures result[..] == GraySample(src, x, y).Channels()
  {
    var p := ReplicateBorder(x, y, src.Rect);
    var i := src.PixOffset(p);
    var g := Replicate8(src.Pix[i]);
    result[0] := g;
    result[1] := g;
    result[2] := g;
    result[3] := FULL;
  }

  /** 16-bit gray: R = G = B = the big-endian luma, alpha full. */
  function Gray16Sample(src: PackedImage, x: int, y: int): (c: Color)
    requires src.Gray16? && src.PixelInBuffer(ReplicateBorder(x, y, src.Rect))
    ensures c.R == c.G == c.B && c.A == FULL
    ensures var i := src.PixOffset(ReplicateBorder(x, y, src.Rect));
            c.R == src.Pix[i] as int * 0x100 + src.Pix[i + 1] as int
    ensures !src.Rect.Empty() ==> c == src.ColorAt(ReplicateBorder(x, y, src.Rect))
  {
    var i := src.PixOffset(ReplicateBorder(x, y, src.Rect));
    var g := Assemble16(src.Pix[i + 0], src.Pix[i + 1]);
    Color(g, g, g, FULL)
  }

  method Gray16At(src: PackedImage, x: int, y: int, result: array<int>)
    requires src.Gray16? && src.PixelInBuffer(ReplicateBorder(x, y, src.Rect))
    requires result.Length == 4
    modifies result
    ensures result[..] == Gray16Sample(src, x, y).Channels()
  {
    var p := ReplicateBorder(x, y, src.Rect);
    var i := src.PixOffset(p);
    var g := Assemble16(src.Pix[i + 0], src.Pix[i + 1]);
    result[0] := g;
    result[1] := g;
    result[2] := g;
    result[3] := FULL;
  }

  /** The luma/chroma to RGB conversion of the colour library, kept abstract. */
  type YCbCrToRGB = (bv8, bv8, bv8) -> (bv8, bv8, bv8)

  /** Luma/chroma: the converted R, G, B bytes, each copied into both bytes
      of its channel, and alpha full. */
  function YCbCrSample(src: YCbCrImage, toRGB: YCbCrToRGB, x: int, y: int): (c: Color)
    requires src.SamplesInBuffer(ReplicateBorder(x, y, src.Rect))
    ensures c.A == FULL
    ensures var p := ReplicateBorder(x, y, src.Rect);
            var yi, ci := src.YOffset(p.X, p.Y), src.COffset(p.X, p.Y);
            var rgb := toRGB(src.Y[yi], src.Cb[ci], src.Cr[ci]);
            c.R / 0x100 == c.R % 0x100 == rgb.0 as int &&
            c.G / 0x100 == c.G % 0x100 == rgb.1 as int &&
            c.B / 0x100 == c.B % 0x100 == rgb.2 as int
  {
    var p := ReplicateBorder(x, y, src.Rect);
    var yi := src.YOffset(p.X, p.Y);
    var ci := src.COffset(p.X, p.Y);
    var rgb := toRGB(src.Y[yi], src.Cb[ci], src.Cr[ci]);
    Color(Widen101(rgb.0), Widen101(rgb.1), Widen101(rgb.2), FULL)
  }

  method YCbCrAt(src: YCbCrImage, toRGB: YCbCrToRGB, x: int, y: int, result: array<int>)
    requires src.SamplesInBuffer(ReplicateBorder(x, y, src.Rect))
    requires result.Length == 4
    modifies result
    ensures result[..] == YCbCrSample(src, toRGB, x, y).Channels()
  {
    var p := ReplicateBorder(x, y, src.Rect);
    var yi := src.YOffset(p.X, p.Y);
    var ci := src.COffset(p.X, p.Y);
    var rgb := toRGB(src.Y[yi], src.Cb[ci], src.Cr[ci]);
    result[0] := Widen101(rgb.0);
    result[1] := Widen101(rgb.1);
    result[2] := Widen101(rgb.2);
    result[3] := FULL;
  }

  // ---------------------------------------------------------------------------
  // The converter interface: one closed set of variants

  datatype Converter =
    | GenericConverter(generic: GenericImage)
    | RGBAConverter(rgba: PackedImage)
    | RGBA64Converter(rgba64: PackedImage)
    | GrayConverter(gray: PackedImage)
    | Gray16Converter(gray16: PackedImage)
    | YCbCrConverter(ycbcr: YCbCrImage, toRGB: YCbCrToRGB)
  {
    /** Each fast-path variant holds a source of its own pixel store. */
    predicate Valid() {
      match this
      case GenericConverter(_) => true
      case RGBAConverter(src) => src.RGBA?
      case RGBA64Converter(src) => src.RGBA64?
      case GrayConverter(src) => src.Gray?
      case Gray16Converter(src) => src.Gray16?
      case YCbCrConverter(_, _) => true
    }

    /** The rectangle coordinates are clamped into. */
    function Bounds(): (r: Rect) {
      match this
      case GenericConverter(src) => src.Bounds
      case RGBAConverter(src) => src.Rect
      case RGBA64Converter(src) => src.Rect
      case GrayConverter(src) => src.Rect
      case Gray16Converter(src) => src.Rect
      case YCbCrConverter(src, _) => src.Rect
    }

    /** Every buffer read of a sample at (x, y) is in range. */
    predicate CanSample(x: int, y: int) {
      Valid() &&
      match this
      case GenericConverter(_) => true
      case RGBAConverter(src) => src.PixelInBuffer(ReplicateBorder(x, y, src.Rect))
      case RGBA64Converter(src) => src.PixelInBuffer(ReplicateBorder(x, y, src.Rect))
      case GrayConverter(src) => src.PixelInBuffer(ReplicateBorder(x, y, src.Rect))
      case Gray16Converter(src) => src.PixelInBuffer(ReplicateBorder(x, y, src.Rect))
      case YCbCrConverter(src, _) => src.SamplesInBuffer(ReplicateBorder(x, y, src.Rect))
    }

    /** The source is non-empty and every pixel of it can be read. */
    ghost predicate WellFormed() {
      Valid() &&
      match this
      case GenericConverter(_) => true
      case RGBAConverter(src) => src.WellFormed()
      case RGBA64Converter(src) => src.WellFormed()
      case GrayConverter(src) => src.WellFormed()
      case Gray16Converter(src) => src.WellFormed()
      case YCbCrConverter(src, _) =>
        !src.Rect.Empty() && forall p :: src.Rect.Contains(p) ==> src.SamplesInBuffer(p)
    }

    function Sample(x: int, y: int): (c: Color)
      requires CanSample(x, y)
      ensures (GrayConverter? || Gray16Converter? || YCbCrConverter?) ==> c.A == FULL
      ensures (GrayConverter? || Gray16Converter?) ==> c.R == c.G == c.B
    {
      match this
      case GenericConverter(src) => GenericSample(src, x, y)
      case RGBAConverter(src) => RGBASample(src, x, y)
      case RGBA64Converter(src) => RGBA64Sample(src, x, y)
      case GrayConverter(src) => GraySample(src, x, y)
      case Gray16Converter(src) => Gray16Sample(src, x, y)
      case YCbCrConverter(src, toRGB) => YCbCrSample(src, toRGB, x, y)
    }

    /** The interface method: fills the four slots of result. */
    method At(x: int, y: int, result: array<int>)
      requires CanSample(x, y)
      requires result.Length == 4
      modifies result
      ensures result[..] == Sample(x, y).Channels()
    {
      match this
      case GenericConverter(src) => GenericAt(src, x, y, result);
      case RGBAConverter(src) => RGBAAt(src, x, y, result);
      case RGBA64Converter(src) => RGBA64At(src, x, y, result);
      case GrayConverter(src) => GrayAt(src, x, y, result);
      case Gray16Converter(src) => Gray16At(src, x, y, result);
      case YCbCrConverter(src, toRGB) => YCbCrAt(src, toRGB, x, y, result);
    }
  }

  /** Every converter of a well-formed source can sample every (x, y), however
      far outside the image: no read leaves its buffer. */
  lemma {:induction false} CanSampleWhenWellFormed(c: Converter, x: int, y: int)
    requires c.WellFormed()
    ensures c.CanSample(x, y)
  {
    var p := ReplicateBorder(x, y, c.Bounds());
    match c
    case GenericConverter(_) =>
    case RGBAConverter(src) => PixelInBufferWhenWellFormed(src, p);
    case RGBA64Converter(src) => PixelInBufferWhenWellFormed(src, p);
    case GrayConverter(src) => PixelInBufferWhenWellFormed(src, p);
    case Gray16Converter(src) => PixelInBufferWhenWellFormed(src, p);
    case YCbCrConverter(src, _) => assert src.Rect.Contains(p);
  }

  /** Every converter returns at (x, y) the colour it returns at the clamped
      point: a far-out coordinate reads the nearest edge pixel. */
  lemma SampleReplicatesBorder(c: Converter, x: int, y: int)
    requires c.CanSample(x, y) && !c.Bounds().Empty()
    ensures var p := ReplicateBorder(x, y, c.Bounds());
            c.CanSample(p.X, p.Y) && c.Sample(p.X, p.Y) == c.Sample(x, y)
  {
    ReplicateBorderIdempotent(x, y, c.Bounds());
  }

  /** The fast-path converter for a dense image of the given type. */
  function FastPath(src: PackedImage): (c: Converter)
    ensures c.Valid() && c.Bounds() == src.Rect
  {
    match src
    case RGBA(_, _, _) => RGBAConverter(src)
    case RGBA64(_, _, _) => RGBA64Converter(src)
    case Gray(_, _, _) => GrayConverter(src)
    case Gray16(_, _, _) => Gray16Converter(src)
  }

  /** The fast path reads the same colour as the generic path over the same
      well-formed image, at every (x, y). */
  lemma {:induction false} FastPathMatchesGeneric(src: PackedImage, x: int, y: int)
    requires src.WellFormed()
    ensures FastPath(src).CanSample(x, y)
    ensures FastPath(src).Sample(x, y) == GenericConverter(src.AsImage()).Sample(x, y)
  {
    var p := ReplicateBorder(x, y, src.Rect);
    CanSampleWhenWellFormed(FastPath(src), x, y);
    PixelInBufferWhenWellFormed(src, p);
  }
}

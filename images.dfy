/** The pixel stores the converters read. The Go image package itself is not
    part of this model; what the converters rely on is written out here: the
    16-bit colour value, the dense byte layouts with their byte offset
    (PixOffset), and the colour that the package's own At(x, y).RGBA() reports
    for a pixel of a dense layout, which serves as the reference the fast
    converters are proved against. */
module Images {
  import opened Geometry
  import opened Arithmetic

  /** A colour channel as a 16-bit numerator: 0 is none, 0xFFFF is full. */
  type Channel = c: int | 0 <= c <= 0xFFFF

  const FULL: Channel := 0xFFFF

  /** Red, green, blue and alpha, each as a 16-bit numerator. */
  datatype Color = Color(R: Channel, G: Channel, B: Channel, A: Channel) {

    /** The four channels in slot order 0..3 of a colour array. */
    function Channels(): (s: seq<int>)
      ensures |s| == 4
      ensures forall k :: 0 <= k < 4 ==> 0 <= s[k] <= 0xFFFF
    {
      [R, G, B, A]
    }
  }

  /** A dense image: rows of Stride bytes in Pix, the pixel at Rect.Min
      first. The constructor is the Go type (image.RGBA, image.RGBA64,
      image.Gray, image.Gray16), and it fixes the bytes per pixel. */
  datatype PackedImage =
    | RGBA(Pix: seq<bv8>, Stride: int, Rect: Rect)
    | RGBA64(Pix: seq<bv8>, Stride: int, Rect: Rect)
    | Gray(Pix: seq<bv8>, Stride: int, Rect: Rect)
    | Gray16(Pix: seq<bv8>, Stride: int, Rect: Rect)
  {
    function BytesPerPixel(): (n: nat)
      ensures n in {1, 2, 4, 8}
    {
      match this
      case RGBA(_, _, _) => 4
      case RGBA64(_, _, _) => 8
      case Gray(_, _, _) => 1
      case Gray16(_, _, _) => 2
    }

    /** Index in Pix of the first byte of the pixel at p. */
    function PixOffset(p: Point): (i: int) {
      (p.Y - Rect.Min.Y) * Stride + (p.X - Rect.Min.X) * BytesPerPixel()
    }

    /** Every byte of the pixel at p is an index of Pix. */
    predicate PixelInBuffer(p: Point) {
      0 <= PixOffset(p) && PixOffset(p) + BytesPerPixel() <= |Pix|
    }

    /** A non-empty image whose rows do not overlap and whose buffer reaches
        the last byte of the last row. */
    predicate WellFormed() {
      !Rect.Empty() &&
      Stride >= Rect.Dx() * BytesPerPixel() &&
      |Pix| >= (Rect.Dy() - 1) * Stride + Rect.Dx() * BytesPerPixel()
    }

    /** The colour the image package reports at p: the zero colour of the
        image's colour type outside Rect, otherwise the stored bytes with an
        8-bit channel v widened to v * 0x101 and a 16-bit channel stored most
        significant byte first. */
    function ColorAt(p: Point): (c: Color)
      requires Rect.Contains(p) ==> PixelInBuffer(p)
      ensures (Gray? || Gray16?) ==> c.R == c.G == c.B && c.A == FULL
      ensures !Rect.Contains(p) ==> c.R == c.G == c.B == 0
    {
      if !Rect.Contains(p) then
        (if Gray? || Gray16? then Color(0, 0, 0, FULL) else Color(0, 0, 0, 0))
      else
        var i := PixOffset(p);
        match this
        case RGBA(_, _, _) =>
          Color(Pix[i] as int * 0x101, Pix[i + 1] as int * 0x101,
                Pix[i + 2] as int * 0x101, Pix[i + 3] as int * 0x101)
        case RGBA64(_, _, _) =>
          Color(Pix[i] as int * 0x100 + Pix[i + 1] as int,
                Pix[i + 2] as int * 0x100 + Pix[i + 3] as int,
                Pix[i + 4] as int * 0x100 + Pix[i + 5] as int,
                Pix[i + 6] as int * 0x100 + Pix[i + 7] as int)
        case Gray(_, _, _) =>
          var v := Pix[i] as int * 0x101;
          Color(v, v, v, FULL)
        case Gray16(_, _, _) =>
          var v := Pix[i] as int * 0x100 + Pix[i + 1] as int;
          Color(v, v, v, FULL)
    }

    /** The same image seen through the generic image interface. */
    function AsImage(): (img: GenericImage)
      requires WellFormed()
      ensures img.Bounds == Rect
    {
      GenericImage(Rect, (x: int, y: int) =>
        if Rect.Contains(Point(x, y)) && !PixelInBuffer(Point(x, y))
        then Color(0, 0, 0, 0)  // unreachable for a well-formed image
        else ColorAt(Point(x, y)))
    }
  }

  /** In a well-formed image every pixel of Rect lies wholly inside Pix, so
      no read of a converter can index past the buffer. */
  lemma {:induction false} PixelInBufferWhenWellFormed(img: PackedImage, p: Point)
    requires img.WellFormed() && img.Rect.Contains(p)
    ensures img.PixelInBuffer(p)
  {
    var bpp := img.BytesPerPixel();
    var dy := p.Y - img.Rect.Min.Y;
    var dx := p.X - img.Rect.Min.X;
    assert 0 <= dy <= img.Rect.Dy() - 1;
    assert 0 <= dx <= img.Rect.Dx() - 1;
    assert img.Stride >= 0 by {
      MulMonotone(0, img.Rect.Dx(), bpp);
    }
    MulMonotone(0, dy, img.Stride);
    MulMonotone(0, dx, bpp);
    MulMonotone(dy, img.Rect.Dy() - 1, img.Stride);
    MulMonotone(dx, img.Rect.Dx() - 1, bpp);
    assert (img.Rect.Dx() - 1) * bpp + bpp == img.Rect.Dx() * bpp;
  }

  /** Pixels are stored row by row: the first pixel of Rect at offset 0, the
      next pixel of a row BytesPerPixel further on, the next row Stride
      further on. */
  lemma PixOffsetRowMajor(img: PackedImage, p: Point)
    ensures img.PixOffset(img.Rect.Min) == 0
    ensures img.PixOffset(Point(p.X + 1, p.Y)) == img.PixOffset(p) + img.BytesPerPixel()
    ensures img.PixOffset(Point(p.X, p.Y + 1)) == img.PixOffset(p) + img.Stride
  {
  }

  /** In a well-formed image two distinct pixels occupy disjoint bytes of
      Pix, so each read sees only the pixel it addresses. */
  lemma {:induction false} PixelsDisjoint(img: PackedImage, p: Point, q: Point)
    requires img.WellFormed() && img.Rect.Contains(p) && img.Rect.Contains(q)
    requires p.Y < q.Y || (p.Y == q.Y && p.X < q.X)
    ensures img.PixOffset(p) + img.BytesPerPixel() <= img.PixOffset(q)
  {
    var bpp := img.BytesPerPixel();
    var dx := q.X - p.X;
    var dy := q.Y - p.Y;
    assert img.PixOffset(q) - img.PixOffset(p) == dy * img.Stride + dx * bpp;
    if dy == 0 {
      MulMonotone(1, dx, bpp);
    } else {
      MulMonotone(1, dy, img.Stride - img.Rect.Dx() * bpp + img.Rect.Dx() * bpp);
      MulMonotone(1 - img.Rect.Dx(), dx, bpp);
    }
  }

  /** An image known only through its public interface: its bounds and the
      colour At(x, y).RGBA() reports, each channel within [0, 0xFFFF]. */
  datatype GenericImage = GenericImage(Bounds: Rect, At: (int, int) -> Color)

  /** A luma/chroma image. The Y plane and the subsampled Cb and Cr planes are
      byte sequences; the YOffset and COffset index functions, which depend on
      the strides and the subsample ratio, are left abstract. */
  datatype YCbCrImage = YCbCrImage(
    Y: seq<bv8>, Cb: seq<bv8>, Cr: seq<bv8>, Rect: Rect,
    YOffset: (int, int) -> int, COffset: (int, int) -> int)
  {
    /** The luma and chroma reads for the pixel at p are indices of the planes. */
    predicate SamplesInBuffer(p: Point) {
      0 <= YOffset(p.X, p.Y) < |Y| &&
      0 <= COffset(p.X, p.Y) < |Cb| && COffset(p.X, p.Y) < |Cr|
    }
  }
}

/** Target sizes that keep an image's aspect ratio. The float32 arithmetic of
    the helpers is idealised as exact real arithmetic; a float-to-uint
    conversion is the floor of a non-negative real. */
module Util {
  import opened Geometry
  import opened Arithmetic

  /** In exact arithmetic, scaling n by the ratio m / d is the quotient
      (n * m) / d. */
  lemma ScaledRatio(n: nat, m: nat, d: int)
    requires d > 0
    ensures n as real * (m as real / d as real) == (n * m) as real / d as real
  {
  }

  /** x = a / d is at least qr, so a is at least qr * d. */
  lemma RealFloorLower(a: real, d: real, x: real, qr: real)
    requires d > 0.0 && x * d == a && qr <= x
    ensures qr * d <= a
  {
    RealScale(qr, x, d);
  }

  /** x = a / d is below qr + 1, so a is below qr * d + d. */
  lemma RealFloorUpper(a: real, d: real, x: real, qr: real)
    requires d > 0.0 && x * d == a && x < qr + 1.0
    ensures a < qr * d + d
  {
    RealScaleStrict(x, qr + 1.0, d);
    assert (qr + 1.0) * d == qr * d + d;
  }

  /** Converting a product to a real is the product of the conversions. */
  lemma ProductAsReal(q: int, d: int)
    ensures (q * d) as real == q as real * d as real
  {
  }

  /** The floor of a / d is the integer q with q * d <= a < (q + 1) * d. */
  lemma {:induction false} FloorOfQuotient(a: nat, d: int)
    requires d > 0
    ensures var q := (a as real / d as real).Floor;
            q >= 0 && q * d <= a < (q + 1) * d
  {
    var x := a as real / d as real;
    var q := x.Floor;
    assert x * d as real == a as real;
    RealFloorLower(a as real, d as real, x, q as real);
    RealFloorUpper(a as real, d as real, x, q as real);
    ProductAsReal(q, d);
    assert (q * d) as real <= a as real;
    assert a as real < (q * d + d) as real;
    assert (q + 1) * d == q * d + d;
  }

  /** For d > 0, the floor q of n * (m / d) satisfies
      q * d <= n * m < (q + 1) * d. */
  lemma {:induction false} FloorOfScaledRatio(n: nat, m: nat, d: int)
    requires d > 0
    ensures var q := (n as real * (m as real / d as real)).Floor;
            q >= 0 && q * d <= n * m < (q + 1) * d
  {
    ScaledRatio(n, m, d);
    FloorOfQuotient(n * m, d);
  }

  /** uint(float32(n) * (float32(m) / float32(d))) in exact arithmetic: n
      scaled by the ratio m / d and rounded down. */
  function ScaleFloor(n: nat, m: nat, d: int): (q: nat)
    requires d > 0
    ensures q * d <= n * m < (q + 1) * d
  {
    FloorOfScaledRatio(n, m, d);
    (n as real * (m as real / d as real)).Floor
  }

  /** Returns the requested width and the height that keeps the aspect ratio
      of rect, rounded down. */
  function FromWidth(rect: Rect, width: nat): (size: (nat, nat))
    requires rect.Dx() > 0 && rect.Dy() >= 0
    ensures size.0 == width
    ensures size.1 * rect.Dx() <= width * rect.Dy() < (size.1 + 1) * rect.Dx()
  {
    (width, ScaleFloor(width, rect.Dy(), rect.Dx()))
  }

  /** Returns the width that keeps the aspect ratio of rect, rounded down,
      and the requested height. */
  function FromHeight(rect: Rect, height: nat): (size: (nat, nat))
    requires rect.Dy() > 0 && rect.Dx() >= 0
    ensures size.1 == height
    ensures size.0 * rect.Dy() <= height * rect.Dx() < (size.0 + 1) * rect.Dy()
  {
    (ScaleFloor(height, rect.Dx(), rect.Dy()), height)
  }

  /** Go's float32 test Dx / Dy >= 1 on non-negative extents. A zero Dy makes
      the quotient +Inf when Dx > 0, which passes, and NaN when Dx = 0,
      which fails every comparison. */
  function AspectAtLeastOne(dx: nat, dy: nat): (b: bool)
    ensures dy > 0 ==> (b <==> dx as real / dy as real >= 1.0)
    ensures b <==> dx >= dy && dx > 0
  {
    if dy == 0 then
      dx > 0
    else
      var aspect := dx as real / dy as real;
      assert aspect * dy as real == dx as real;
      aspect >= 1.0
  }

  /** The size of rect when it already fits in maxWidth x maxHeight;
      otherwise FromWidth(maxWidth) for a landscape or square rect and
      FromHeight(maxHeight) for a portrait one. A rect of height 0 that does
      not fit is sized (maxWidth, 0). */
  function Thumbnail(rect: Rect, maxWidth: nat, maxHeight: nat): (size: (nat, nat))
    requires rect.Dy() >= 0 && rect.Dx() >= 0
    ensures maxWidth >= rect.Dx() && maxHeight >= rect.Dy() ==> size == (rect.Dx(), rect.Dy())
    ensures !(maxWidth >= rect.Dx() && maxHeight >= rect.Dy()) && rect.Dx() >= rect.Dy() ==>
              size.0 == maxWidth &&
              size.1 * rect.Dx() <= maxWidth * rect.Dy() < (size.1 + 1) * rect.Dx()
    ensures !(maxWidth >= rect.Dx() && maxHeight >= rect.Dy()) && rect.Dx() < rect.Dy() ==>
              size.1 == maxHeight &&
              size.0 * rect.Dy() <= maxHeight * rect.Dx() < (size.0 + 1) * rect.Dy()
    ensures !(maxWidth >= rect.Dx() && maxHeight >= rect.Dy()) && rect.Dy() == 0 ==>
              size == (maxWidth, 0)
  {
    if maxWidth >= rect.Dx() && maxHeight >= rect.Dy() then
      (rect.Dx(), rect.Dy())
    else if AspectAtLeastOne(rect.Dx(), rect.Dy()) then
      FromWidth(rect, maxWidth)
    else
      FromHeight(rect, maxHeight)
  }

  /** The three size computations the package's tests assert. */
  lemma SizeExamples()
    ensures FromWidth(MakeRect(0, 0, 100, 200), 100) == (100, 200)
    ensures FromHeight(MakeRect(0, 0, 100, 200), 200) == (100, 200)
    ensures FromWidth(MakeRect(0, 0, 500000, 500000), 10000) == (10000, 10000)
  {
  }

  /** A rectangle of width w and height h at the origin. */
  function Size(w: nat, h: nat): (r: Rect)
    ensures r.Dx() == w && r.Dy() == h
  {
    MakeRect(0, 0, w, h)
  }

  /** Thumbnail as written can enlarge an image and exceed the box: a
      100 x 50 image asked to fit 1000 x 10 is sized 1000 x 500, because a
      landscape image is always sized by its width even when the height is
      the tighter bound. */
  lemma ThumbnailExceedsBox()
    ensures Thumbnail(Size(100, 50), 1000, 10) == (1000, 500)
  {
  }

  /** Thumbnail sized by whichever side is the tighter bound: unchanged when
      the image already fits, otherwise by width exactly when
      maxWidth / Dx < maxHeight / Dy, and by width when Dy is 0. */
  function FitThumbnail(rect: Rect, maxWidth: nat, maxHeight: nat): (size: (nat, nat))
    requires rect.Dy() >= 0 && rect.Dx() >= 0
    ensures maxWidth >= rect.Dx() && maxHeight >= rect.Dy() ==> size == (rect.Dx(), rect.Dy())
    ensures size.0 <= maxWidth && size.1 <= maxHeight
    ensures size.0 <= rect.Dx() && size.1 <= rect.Dy()
    ensures !(maxWidth >= rect.Dx() && maxHeight >= rect.Dy()) ==>
              (size.0 == maxWidth &&
               size.1 * rect.Dx() <= maxWidth * rect.Dy() < (size.1 + 1) * rect.Dx()) ||
              (size.1 == maxHeight &&
               size.0 * rect.Dy() <= maxHeight * rect.Dx() < (size.0 + 1) * rect.Dy())
  {
    var w, h := rect.Dx(), rect.Dy();
    if maxWidth >= w && maxHeight >= h then
      (w, h)
    else if h == 0 then
      FromWidth(rect, maxWidth)
    else if maxWidth * h < maxHeight * w then
      var size := FromWidth(rect, maxWidth);
      SizedByWidthFits(w, h, maxWidth, maxHeight, size.1);
      size
    else
      var size := FromHeight(rect, maxHeight);
      SizedByHeightFits(w, h, maxWidth, maxHeight, size.0);
      size
  }

  /** When the width is the tighter bound (maxWidth / w < maxHeight / h) and
      the image does not fit, sizing by width gives a size within both the
      box and the image. */
  lemma {:induction false} SizedByWidthFits(w: nat, h: nat, maxWidth: nat, maxHeight: nat, h': nat)
    requires h > 0 && maxWidth * h < maxHeight * w
    requires !(maxWidth >= w && maxHeight >= h)
    requires h' * w <= maxWidth * h
    ensures maxWidth <= w && h' <= maxHeight && h' <= h
  {
    if maxHeight < h {
      MulMonotone(maxHeight, h, w);
      CancelFactorStrict(maxWidth, w, h);
    }
    CancelFactorStrict(h', maxHeight, w);
    MulMonotone(maxWidth, w, h);
    CancelFactor(h', h, w);
  }

  /** When the height is the tighter bound (maxHeight / h <= maxWidth / w)
      and the image does not fit, sizing by height gives a size within both
      the box and the image. */
  lemma {:induction false} SizedByHeightFits(w: nat, h: nat, maxWidth: nat, maxHeight: nat, w': nat)
    requires h > 0 && maxHeight * w <= maxWidth * h
    requires !(maxWidth >= w && maxHeight >= h)
    requires w' * h <= maxHeight * w
    ensures maxHeight <= h && w' <= maxWidth && w' <= w
  {
  }

  /** The image of ThumbnailExceedsBox, sized by its tighter bound: the
      height, giving 20 x 10. */
  lemma FitThumbnailExample()
    ensures FitThumbnail(Size(100, 50), 1000, 10) == (20, 10)
  {
  }
}

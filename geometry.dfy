/** Integer points and half-open rectangles, as the Go image package defines
    them: a rectangle contains the points with Min.X <= X < Max.X and
    Min.Y <= Y < Max.Y. */
module Geometry {

  datatype Point = Point(X: int, Y: int)

  datatype Rect = Rect(Min: Point, Max: Point) {

    /** Width of the rectangle. */
    function Dx(): (w: int) { Max.X - Min.X }

    /** Height of the rectangle. */
    function Dy(): (h: int) { Max.Y - Min.Y }

    /** True when the rectangle contains no point. */
    predicate Empty() { Min.X >= Max.X || Min.Y >= Max.Y }

    /** Go's Point.In: p lies inside the rectangle. */
    predicate Contains(p: Point) {
      Min.X <= p.X < Max.X && Min.Y <= p.Y < Max.Y
    }
  }

  /** image.Rect(x0, y0, x1, y1) for already ordered corners. */
  function MakeRect(x0: int, y0: int, x1: int, y1: int): (r: Rect)
    requires x0 <= x1 && y0 <= y1
    ensures r.Dx() == x1 - x0 && r.Dy() == y1 - y0
    ensures r.Contains(Point(x0, y0)) <==> x0 < x1 && y0 < y1
  {
    Rect(Point(x0, y0), Point(x1, y1))
  }
}

/** Rectangles as the paint-order tree uses them, over the reals. */
module Geometry {

  datatype Point = Point(x: real, y: real) {
    function Max(other: Point): Point {
      Point(if x > other.x then x else other.x, if y > other.y then y else other.y)
    }

    function Min(other: Point): Point {
      Point(if x <= other.x then x else other.x, if y <= other.y then y else other.y)
    }
  }

  datatype Size = Size(width: real, height: real)

  /** A rectangle given by its top-left corner and its extent; the extent may be zero or negative. */
  datatype Bounds = Bounds(origin: Point, size: Size) {
    function BottomRight(): Point {
      Point(origin.x + size.width, origin.y + size.height)
    }

    static function FromCorners(topLeft: Point, bottomRight: Point): Bounds {
      Bounds(topLeft, Size(bottomRight.x - topLeft.x, bottomRight.y - topLeft.y))
    }

    predicate Intersects(other: Bounds) {
      && origin.x < other.BottomRight().x
      && BottomRight().x > other.origin.x
      && origin.y < other.BottomRight().y
      && BottomRight().y > other.origin.y
    }

    function Union(other: Bounds): Bounds {
      FromCorners(origin.Min(other.origin), BottomRight().Max(other.BottomRight()))
    }

    function HalfPerimeter(): real {
      size.width + size.height
    }
  }

  /** `outer` contains `inner`, corner by corner. */
  ghost predicate Covers(outer: Bounds, inner: Bounds) {
    && outer.origin.x <= inner.origin.x
    && outer.origin.y <= inner.origin.y
    && inner.BottomRight().x <= outer.BottomRight().x
    && inner.BottomRight().y <= outer.BottomRight().y
  }

  /** `p` lies in the open interior of `b`. */
  ghost predicate Interior(b: Bounds, p: Point) {
    b.origin.x < p.x < b.BottomRight().x && b.origin.y < p.y < b.BottomRight().y
  }

  /** The union is the least rectangle covering both operands; no assumption on the extents. */
  lemma UnionIsLeastCover(a: Bounds, b: Bounds)
    ensures Covers(a.Union(b), a) && Covers(a.Union(b), b)
    ensures forall c :: Covers(c, a) && Covers(c, b) ==> Covers(c, a.Union(b))
  {
  }

  /** Spatial pruning is sound: whatever meets a rectangle meets everything that covers it. */
  lemma CoverMeetsMore(query: Bounds, inner: Bounds, outer: Bounds)
    requires Covers(outer, inner) && query.Intersects(inner)
    ensures query.Intersects(outer)
  {
  }

  /** For any extents: two rectangles intersect iff the origin of one lies inside the other grown by the one's extent. */
  lemma IntersectsIffOriginInSum(a: Bounds, b: Bounds)
    ensures a.Intersects(b) <==>
              Interior(Bounds(Point(a.origin.x - b.size.width, a.origin.y - b.size.height),
                              Size(a.size.width + b.size.width, a.size.height + b.size.height)), b.origin)
    ensures a.Intersects(b) <==> b.Intersects(a)
  {
  }

  function MidLow(a: real, b: real, c: real, d: real): real {
    ((if a > c then a else c) + (if b < d then b else d)) / 2.0
  }

  /** For rectangles of positive extent, `Intersects` is exactly sharing an interior point. */
  lemma IntersectsIffShareInterior(a: Bounds, b: Bounds)
    requires a.size.width > 0.0 && a.size.height > 0.0 && b.size.width > 0.0 && b.size.height > 0.0
    ensures a.Intersects(b) <==> exists p :: Interior(a, p) && Interior(b, p)
  {
    if a.Intersects(b) {
      var p := Point(MidLow(a.origin.x, a.BottomRight().x, b.origin.x, b.BottomRight().x),
                     MidLow(a.origin.y, a.BottomRight().y, b.origin.y, b.BottomRight().y));
      assert Interior(a, p) && Interior(b, p);
    }
  }
}

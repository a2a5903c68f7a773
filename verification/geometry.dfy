/** The canvas and the axis-aligned bounding-box overlap test of `Game.hit`. */
module Geometry {

  /** The fixed canvas size set by `resize`. */
  const CanvasWidth: int := 1000
  const CanvasHeight: int := 500

  /** An axis-aligned rectangle: top-left corner, width and height. */
  datatype Box = Box(x: int, y: int, w: int, h: int)

  /** `Game.hit`: the two rectangles overlap with a strictly positive area. */
  predicate Hit(a: Box, b: Box)
  {
    && a.x < b.x + b.w
    && a.x + a.w > b.x
    && a.y < b.y + b.h
    && a.y + a.h > b.y
  }

  /** The pixel (px, py) lies in the half-open rectangle `b`. */
  predicate Covers(b: Box, px: int, py: int)
  {
    b.x <= px < b.x + b.w && b.y <= py < b.y + b.h
  }

  /** The overlap test does not depend on the order of its arguments. */
  lemma HitSymmetric(a: Box, b: Box)
    ensures Hit(a, b) <==> Hit(b, a)
  {
  }

  /** For rectangles of positive size, `Hit` holds exactly when some pixel
      lies in both of them. */
  lemma HitIffSharedPixel(a: Box, b: Box)
    requires a.w > 0 && a.h > 0 && b.w > 0 && b.h > 0
    ensures Hit(a, b) <==> exists px, py :: Covers(a, px, py) && Covers(b, px, py)
  {
    if Hit(a, b) {
      var px := if a.x < b.x then b.x else a.x;
      var py := if a.y < b.y then b.y else a.y;
      assert Covers(a, px, py) && Covers(b, px, py);
    }
  }
}

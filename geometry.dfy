/**
 * The two-dimensional vocabulary the game borrows from its graphics library:
 * vectors and axis-aligned rectangles given by a top-left position and a size
 * (+x to the right, +y downwards).
 *
 * The library's own `center`, `with_center` and `overlaps_rectangle` are not
 * part of this model; they are defined here as assumptions about it:
 * the centre is the midpoint, and two rectangles overlap when their open
 * interiors intersect on both axes (strict comparisons).
 */
module Geometry {

  datatype Vec2 = Vec2(x: real, y: real)

  datatype Rect = Rect(pos: Vec2, size: Vec2) {

    function Right(): real { pos.x + size.x }

    function Bottom(): real { pos.y + size.y }

    function Center(): Vec2 {
      Vec2(pos.x + size.x / 2.0, pos.y + size.y / 2.0)
    }

    /** The rectangle of the same size moved so that its centre is `c`. */
    function WithCenter(c: Vec2): (r: Rect)
      ensures r.size == size
      ensures r.Center() == c
    {
      Rect(Vec2(c.x - size.x / 2.0, c.y - size.y / 2.0), size)
    }

    predicate Overlaps(b: Rect) {
      pos.x < b.Right() && Right() > b.pos.x && pos.y < b.Bottom() && Bottom() > b.pos.y
    }

    /** `b` lies inside this rectangle (borders included). */
    predicate Contains(b: Rect) {
      pos.x <= b.pos.x && b.Right() <= Right() && pos.y <= b.pos.y && b.Bottom() <= Bottom()
    }
  }

  function Min(a: real, b: real): real { if a <= b then a else b }

  function Max(a: real, b: real): real { if a >= b then a else b }

  /** Whatever overlaps a rectangle also overlaps every rectangle containing it. */
  lemma OverlapsEnclosing(inner: Rect, outer: Rect, c: Rect)
    requires outer.Contains(inner) && inner.Overlaps(c)
    ensures outer.Overlaps(c)
  {
  }
}

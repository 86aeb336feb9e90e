/**
 * Screen geometry used by hit-testing and buttons: macroquad's `Vec2` and
 * `Rect`.  Coordinates are reals; the code only adds and compares them.
 */
module Geometry {
  /** A screen position (macroquad `Vec2`). */
  datatype Vec2 = Vec2(x: real, y: real)

  /** An axis-aligned rectangle given by its top-left corner and its size (macroquad `Rect`). */
  datatype Rect = Rect(x: real, y: real, w: real, h: real)

  /** `Rect::contains`: the left and top edges are inside, the right and bottom edges are not. */
  predicate Contains(r: Rect, p: Vec2)
  {
    r.x <= p.x < r.x + r.w && r.y <= p.y < r.y + r.h
  }
}

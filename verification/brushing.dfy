/** The brush rectangle shared by the glyph and waffle views. */
module Brushing {

  /** A brush selection `[[x0, y0], [x1, y1]]`. */
  datatype Rect = Rect(x0: real, y0: real, x1: real, y1: real)

  /** Inclusive on all four sides: `x0 <= x <= x1 && y0 <= y <= y1`. */
  predicate Inside(rect: Rect, x: real, y: real) {
    rect.x0 <= x <= rect.x1 && rect.y0 <= y <= rect.y1
  }
}

/** Axis-aligned integer rectangles (the engine's `RectArea`). */
module Rects {
  import opened Settings

  datatype RectArea = RectArea(left: I32, top: I32, width: U32, height: U32) {

    /** Half-open containment: the left and top edges are inside, the right
        and bottom edges are not. */
    predicate Contains(x: int, y: int) {
      left <= x < left + width && top <= y < top + height
    }
  }

  /** The rectangle of a `width` x `height` surface whose origin is (0, 0). */
  function Bounds(width: U32, height: U32): (r: RectArea)
    ensures forall x, y :: r.Contains(x, y) <==> 0 <= x < width && 0 <= y < height
  {
    RectArea(0, 0, width, height)
  }
}

/** Optional values, used where the source has Swift optionals. */
module Wrappers {
  datatype Option<T> = None | Some(value: T)
}

/**
 * Screen geometry in one shared (global) coordinate space.
 * Coordinates are integers: the engine only compares them and adds or
 * subtracts fixed steps.
 */
module Geometry {
  datatype Point = Point(x: int, y: int)
  datatype Size = Size(width: int, height: int)

  /** A rectangle given by its origin and its (possibly negative) size. */
  datatype Rect = Rect(x: int, y: int, width: int, height: int)

  const ZeroSize: Size := Size(0, 0)
  const ZeroRect: Rect := Rect(0, 0, 0, 0)

  // Edges of the standardized rectangle (a negative size extends the
  // rectangle to the left of, or above, its origin).
  function MinX(r: Rect): int { if r.width < 0 then r.x + r.width else r.x }
  function MaxX(r: Rect): int { if r.width < 0 then r.x else r.x + r.width }
  function MinY(r: Rect): int { if r.height < 0 then r.y + r.height else r.y }
  function MaxY(r: Rect): int { if r.height < 0 then r.y else r.y + r.height }

  /** Half-open containment, minX <= x < maxX and minY <= y < maxY. */
  predicate Contains(r: Rect, p: Point)
  {
    MinX(r) <= p.x < MaxX(r) && MinY(r) <= p.y < MaxY(r)
  }

  /** A degenerate rectangle, such as the default `.zero`, contains no point. */
  lemma EmptyRectContainsNothing(r: Rect, p: Point)
    requires r.width == 0 || r.height == 0
    ensures !Contains(r, p)
  {
  }
}

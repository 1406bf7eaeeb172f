/**
 Geometry records of the layout engine: a resolved integer rectangle and a
 two-dimensional extent. Coordinates are unbounded integers; the source stores
 them as `i32`.
 */
module Types {

  /** A 2-D extent (width, height), the context against which relative sizes resolve. */
  datatype Dimension = Dimension(width: int, height: int)

  /** A resolved axis-aligned rectangle: origin (x, y) and extent (w, h); w and h may be negative. */
  datatype Rect = Rect(x: int, y: int, w: int, h: int)
  {
    /** The extent of this rectangle, forgetting where it sits. */
    function Dimension(): (d: Dimension)
      ensures d.width == w && d.height == h
    {
      NewDimension(w, h)
    }
  }

  /** `Rect::new`: builds a rectangle holding exactly the four given values. */
  function NewRect(x: int, y: int, w: int, h: int): (r: Rect)
    ensures r.x == x && r.y == y && r.w == w && r.h == h
  {
    Rect(x, y, w, h)
  }

  /** `Dimension::new`: builds an extent holding exactly the two given values. */
  function NewDimension(width: int, height: int): (d: Dimension)
    ensures d.width == width && d.height == height
  {
    Dimension(width, height)
  }
}

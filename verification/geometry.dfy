/**
  Integer plane geometry used by the physics engine: points, unit headings,
  axis-aligned rectangles with the overlap test of java.awt.Rectangle, and
  Java's truncating integer division.
 */
module Geometry {

  /** Side of a map tile in pixels; the engine hard-codes it when converting pixels to tiles. */
  const Tile: int := 64

  /** Java's `/` on `int`: the quotient is truncated toward zero. */
  function JDiv(a: int, b: int): (q: int)
    requires b > 0
    ensures a >= 0 ==> q * b <= a < q * b + b
    ensures a < 0 ==> q * b - b < a <= q * b
    ensures (a >= 0) == (q >= 0) || (a < 0 && q == 0)
  {
    if a >= 0 then a / b else -((-a) / b)
  }

  /** Pixel coordinate to tile index, as `p / 64` in the engine. */
  function TileOf(p: int): int {
    JDiv(p, Tile)
  }

  datatype Point = Point(x: int, y: int)

  /** A unit step on the screen: North decreases y, South increases y. */
  datatype Heading = North | East | South | West {

    function Opposite(): Heading {
      match this
      case North => South
      case East => West
      case South => North
      case West => East
    }

    predicate Horizontal() {
      this == East || this == West
    }
  }

  /** The point `k` steps from `p` along `h`. */
  function Offset(p: Point, h: Heading, k: int): Point {
    match h
    case North => Point(p.x, p.y - k)
    case East => Point(p.x + k, p.y)
    case South => Point(p.x, p.y + k)
    case West => Point(p.x - k, p.y)
  }

  datatype Rect = Rect(x: int, y: int, w: int, h: int)

  /**
    java.awt.Rectangle.intersects: an empty rectangle meets nothing, otherwise
    the two must share interior points (touching edges do not count).
   */
  predicate Intersects(a: Rect, b: Rect) {
    && a.w > 0 && a.h > 0 && b.w > 0 && b.h > 0
    && a.x < b.x + b.w && b.x < a.x + a.w
    && a.y < b.y + b.h && b.y < a.y + a.h
  }
}

/**
  The tile map: a column-major grid of blocks (`grid[x][y]`, as the engine's
  `gridMap[x][y]`) with lookups by tile and by pixel coordinate.
 */
module Grid {
  import opened Wrappers
  import opened Geometry

  datatype Block =
    | Blank | Soft | Solid | Blast | Hole
    | MinusBomb | PlusBomb | MinusRange | PlusRange | MinusSpeed | PlusSpeed
  {
    predicate IsPowerUp() {
      this in {MinusBomb, PlusBomb, MinusRange, PlusRange, MinusSpeed, PlusSpeed}
    }
  }

  type Map = seq<seq<Block>>

  predicate InBounds(g: Map, x: int, y: int) {
    0 <= x < |g| && 0 <= y < |g[x]|
  }

  /** Every column as long as the first one: the shape a loaded map has. */
  predicate Rectangular(g: Map) {
    forall x :: 0 <= x < |g| ==> |g[x]| == |g[0]|
  }

  predicate SameShape(g: Map, g': Map) {
    |g| == |g'| && forall x :: 0 <= x < |g| ==> |g[x]| == |g'[x]|
  }

  lemma SameShapeKeepsRectangular(g: Map, g': Map)
    requires Rectangular(g) && SameShape(g, g')
    ensures Rectangular(g')
  {
  }

  /** The block at a tile, or None outside the map. */
  function BlockAt(g: Map, p: Point): (r: Option<Block>)
    ensures r.Some? <==> InBounds(g, p.x, p.y)
  {
    if InBounds(g, p.x, p.y) then Some(g[p.x][p.y]) else None
  }

  /** Map.getPixelBlockAt: the block under a pixel, or None outside the map. */
  function PixelBlockAt(g: Map, px: int, py: int): (r: Option<Block>)
    ensures r.Some? <==> InBounds(g, TileOf(px), TileOf(py))
    ensures r.Some? ==> r.value == g[TileOf(px)][TileOf(py)]
  {
    BlockAt(g, Point(TileOf(px), TileOf(py)))
  }

  /**
    The 64 pixels 64*i .. 64*i+63 of a non-negative tile index i all read
    tile i; because Java's division truncates, the pixels -63 .. -1 read
    tile 0 as well rather than lying off the map.
   */
  lemma PixelInTile(g: Map, px: int, py: int, i: int, j: int)
    requires (0 <= i && Tile * i <= px < Tile * i + Tile) || (i == 0 && -Tile < px < 0)
    requires (0 <= j && Tile * j <= py < Tile * j + Tile) || (j == 0 && -Tile < py < 0)
    ensures PixelBlockAt(g, px, py) == BlockAt(g, Point(i, j))
  {
  }

  /** Map.setGridBlockAt: writes one tile; a position outside the map leaves it as it is. */
  function SetCell(g: Map, p: Point, b: Block): (r: Map)
    ensures SameShape(g, r)
    ensures InBounds(g, p.x, p.y) ==> r[p.x][p.y] == b
    ensures forall x, y :: InBounds(g, x, y) && (x != p.x || y != p.y) ==> r[x][y] == g[x][y]
  {
    if InBounds(g, p.x, p.y) then g[p.x := g[p.x][p.y := b]] else g
  }

  /** Both maps have the same shape and the same Solid tiles. */
  ghost predicate SolidFixed(g: Map, g': Map) {
    && SameShape(g, g')
    && forall x, y :: InBounds(g, x, y) ==> (g'[x][y] == Solid <==> g[x][y] == Solid)
  }

  lemma SolidFixedTransitive(g1: Map, g2: Map, g3: Map)
    requires SolidFixed(g1, g2) && SolidFixed(g2, g3)
    ensures SolidFixed(g1, g3)
  {
  }

  /** Clearing power-ups neither removes nor adds a Solid tile. */
  lemma PowerUpsKeepSolid(g: Map, g': Map)
    requires OnlyPowerUpsCleared(g, g')
    ensures SolidFixed(g, g')
  {
  }

  /** Cells may change only from a power-up to Blank. */
  ghost predicate OnlyPowerUpsCleared(g: Map, g': Map) {
    && SameShape(g, g')
    && forall x, y :: InBounds(g, x, y) && g'[x][y] != g[x][y] ==> g[x][y].IsPowerUp() && g'[x][y] == Blank
  }

  lemma OnlyPowerUpsClearedTransitive(g1: Map, g2: Map, g3: Map)
    requires OnlyPowerUpsCleared(g1, g2) && OnlyPowerUpsCleared(g2, g3)
    ensures OnlyPowerUpsCleared(g1, g3)
  {
  }
}

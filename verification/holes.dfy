/**
  Hole spawning at the end of a tick (the counter part of PhysicsEngine.update
  and okToPutHole): the game counter always advances; once a phase has begun
  the hole counter advances too, and when it reaches that phase's timer it
  resets and one eligible tile, chosen by the caller's `pick`, becomes a Hole.
 */
module Holes {
  import opened Geometry
  import opened Grid
  import opened Entities
  import opened Collision

  /** The pixel rectangle of tile `p`. */
  function TileRect(p: Point): Rect {
    Rect(p.x * Tile, p.y * Tile, Tile, Tile)
  }

  /** No player's rectangle, dead players included, overlaps tile `p`. */
  predicate NoPlayerOn(c: Config, players: seq<Player>, p: Point) {
    forall k :: 0 <= k < |players| ==> !Intersects(PlayerRect(c, players[k].pos), TileRect(p))
  }

  /**
    okToPutHole: a Hole, Soft, Solid or Blast tile never qualifies; in the
    aggressive (second) phase every other tile does, in the first phase only
    a tile no player stands on.
   */
  function OkToPutHole(c: Config, players: seq<Player>, p: Point, b: Block, aggressive: bool): (r: bool)
    ensures r ==> b !in {Hole, Soft, Solid, Blast}
    ensures r && !aggressive ==> NoPlayerOn(c, players, p)
    ensures b !in {Hole, Soft, Solid, Blast} && (aggressive || NoPlayerOn(c, players, p)) ==> r
  {
    if b == Hole || b == Soft || b == Solid || b == Blast then false
    else if aggressive then true
    else NoPlayerOn(c, players, p)
  }

  /** The eligible tiles of column `x` from row `y` on, in increasing `y`. */
  function ColumnCandidates(c: Config, g: Map, players: seq<Player>, aggressive: bool, x: int, y: nat): (r: seq<Point>)
    requires 0 <= x < |g|
    decreases |g[x]| - y
    ensures forall p :: p in r <==>
              p.x == x && y <= p.y < |g[x]| && OkToPutHole(c, players, p, g[x][p.y], aggressive)
  {
    if y >= |g[x]| then []
    else
      var rest := ColumnCandidates(c, g, players, aggressive, x, y + 1);
      if OkToPutHole(c, players, Point(x, y), g[x][y], aggressive) then [Point(x, y)] + rest else rest
  }

  /** The eligible tiles of columns `x` onward, column by column as the engine scans them. */
  function Candidates(c: Config, g: Map, players: seq<Player>, aggressive: bool, x: nat): (r: seq<Point>)
    decreases |g| - x
    ensures forall p :: p in r <==>
              x <= p.x && InBounds(g, p.x, p.y) && OkToPutHole(c, players, p, g[p.x][p.y], aggressive)
  {
    if x >= |g| then []
    else ColumnCandidates(c, g, players, aggressive, x, 0) + Candidates(c, g, players, aggressive, x + 1)
  }

  /** Map `g` with at most tile `p`, an eligible one, turned into a Hole. */
  ghost predicate HolePlaced(c: Config, players: seq<Player>, aggressive: bool, g: Map, g': Map) {
    g' == g ||
    exists p: Point :: InBounds(g, p.x, p.y) && OkToPutHole(c, players, p, g[p.x][p.y], aggressive) && g' == SetCell(g, p, Hole)
  }

  /**
    One phase's hole timer. The hole counter advances by `ms`; when it reaches
    `timer` it resets to 0 and one eligible tile, if there is any, becomes a
    Hole; otherwise nothing but the counter changes.
   */
  function SpawnHole(c: Config, w: GameState, ms: int, timer: int, aggressive: bool, pick: nat): (r: GameState)
    requires Rectangular(w.grid)
    ensures r == w.(grid := r.grid, holeCounter := r.holeCounter)
    ensures w.holeCounter + ms < timer ==> r.grid == w.grid && r.holeCounter == w.holeCounter + ms
    ensures w.holeCounter + ms >= timer ==> r.holeCounter == 0
    ensures HolePlaced(c, w.players, aggressive, w.grid, r.grid)
    ensures w.holeCounter + ms >= timer && Candidates(c, w.grid, w.players, aggressive, 0) != [] ==>
              exists p: Point :: InBounds(w.grid, p.x, p.y) && w.grid[p.x][p.y] != Hole && r.grid[p.x][p.y] == Hole
  {
    var hc := w.holeCounter + ms;
    if hc >= timer then
      var cands := Candidates(c, w.grid, w.players, aggressive, 0);
      if |cands| == 0 then w.(holeCounter := 0)
      else
        var p := cands[pick % |cands|];
        assert p in cands;
        w.(holeCounter := 0, grid := SetCell(w.grid, p, Hole))
    else w.(holeCounter := hc)
  }

  /**
    The counter block of update. The game counter grows by `ms`. From
    HOLES_SECOND_PHASE_BEGINNING on the second phase's timer applies and
    holes may open under players; from HOLES_FIRST_PHASE_BEGINNING on (and
    before the second phase) the first phase's timer applies and holes avoid
    players; before either nothing else changes.
   */
  function HoleStep(c: Config, w: GameState, ms: int, pick: nat): (r: GameState)
    requires Rectangular(w.grid)
    ensures r.gameCounter == w.gameCounter + ms
    ensures r == w.(grid := r.grid, gameCounter := r.gameCounter, holeCounter := r.holeCounter)
    ensures SameShape(w.grid, r.grid)
    ensures forall x, y :: InBounds(w.grid, x, y) && r.grid[x][y] != w.grid[x][y] ==>
              r.grid[x][y] == Hole && w.grid[x][y] !in {Hole, Soft, Solid, Blast}
    ensures w.gameCounter + ms < c.secondPhaseBeginning && w.gameCounter + ms < c.firstPhaseBeginning ==>
              r.grid == w.grid && r.holeCounter == w.holeCounter
    ensures w.gameCounter + ms >= c.secondPhaseBeginning ==>
              HolePlaced(c, w.players, true, w.grid, r.grid)
              && (r.holeCounter == 0 || r.holeCounter == w.holeCounter + ms)
              && (r.holeCounter == 0 <== w.holeCounter + ms >= c.secondPhaseTimer)
              && (w.holeCounter + ms < c.secondPhaseTimer ==> r.grid == w.grid && r.holeCounter == w.holeCounter + ms)
              && (w.holeCounter + ms >= c.secondPhaseTimer && Candidates(c, w.grid, w.players, true, 0) != [] ==>
                    exists p: Point :: InBounds(w.grid, p.x, p.y) && w.grid[p.x][p.y] != Hole && r.grid[p.x][p.y] == Hole)
    ensures c.firstPhaseBeginning <= w.gameCounter + ms < c.secondPhaseBeginning ==>
              HolePlaced(c, w.players, false, w.grid, r.grid)
              && (r.holeCounter == 0 || r.holeCounter == w.holeCounter + ms)
              && (r.holeCounter == 0 <== w.holeCounter + ms >= c.firstPhaseTimer)
              && (w.holeCounter + ms < c.firstPhaseTimer ==> r.grid == w.grid && r.holeCounter == w.holeCounter + ms)
              && (w.holeCounter + ms >= c.firstPhaseTimer && Candidates(c, w.grid, w.players, false, 0) != [] ==>
                    exists p: Point :: InBounds(w.grid, p.x, p.y) && w.grid[p.x][p.y] != Hole && r.grid[p.x][p.y] == Hole)
  {
    var gc := w.gameCounter + ms;
    var w1 := w.(gameCounter := gc);
    if gc >= c.secondPhaseBeginning then
      var r := SpawnHole(c, w1, ms, c.secondPhaseTimer, true, pick);
      HoleSpareBlocking(c, w.players, true, w.grid, r.grid);
      r
    else if gc >= c.firstPhaseBeginning then
      var r := SpawnHole(c, w1, ms, c.firstPhaseTimer, false, pick);
      HoleSpareBlocking(c, w.players, false, w.grid, r.grid);
      r
    else w1
  }

  /** A spawned hole never covers a Solid, Soft, Blast or Hole tile: those tiles keep their block. */
  lemma HoleSpareBlocking(c: Config, players: seq<Player>, aggressive: bool, g: Map, g': Map)
    requires HolePlaced(c, players, aggressive, g, g')
    ensures SameShape(g, g')
    ensures forall x, y :: InBounds(g, x, y) && g[x][y] in {Hole, Soft, Solid, Blast} ==> g'[x][y] == g[x][y]
    ensures forall x, y :: InBounds(g, x, y) && g'[x][y] != g[x][y] ==> g'[x][y] == Hole
  {
    if g' != g {
      var p: Point :| InBounds(g, p.x, p.y) && OkToPutHole(c, players, p, g[p.x][p.y], aggressive) && g' == SetCell(g, p, Hole);
    }
  }
}

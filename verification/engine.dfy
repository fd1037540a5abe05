/**
  One tick of PhysicsEngine.update: the map clean-up, the bomb phase, the
  player loop and the hole counters, in that order, and the invariants the
  whole tick keeps.
 */
module Engine {
  import opened Geometry
  import opened Grid
  import opened Entities
  import opened MapTimers
  import opened Bombs
  import opened PlayerUpdate
  import opened Holes

  /** The state a tick can start from: a rectangular map and a latch for every player. */
  ghost predicate Ready(w: GameState) {
    Rectangular(w.grid) && LatchesCover(w.players, w.okToPlaceBomb)
  }

  /** The map clean-up (updateMap) applied to the whole state. */
  function CleanUp(w: GameState, ms: int): (r: GameState)
    ensures r == w.(grid := r.grid, blasts := r.blasts)
    ensures SameShape(w.grid, r.grid)
    ensures forall t :: t in r.blasts <==> t in Age(w.blasts, ms) && !t.IsDone()
    ensures forall i, j ::
              (InBounds(w.grid, i, j) &&
               forall k :: 0 <= k < |w.blasts| && w.blasts[k].timer - ms <= 0 ==> w.blasts[k].location != Point(i, j)) ==>
              r.grid[i][j] == w.grid[i][j]
  {
    UpdateMapRestores(Arena(w.grid, w.blasts), ms);
    var a := UpdateMap(Arena(w.grid, w.blasts), ms);
    w.(grid := a.grid, blasts := a.blasts)
  }

  /**
    update(ms): one tick. `pick` stands for the random choice among eligible
    hole tiles. The game counter grows by `ms`, the map keeps its shape, the
    audio log only grows, dead players are untouched, and no player gains a
    life or comes back to life; the result is ready for the next tick.
   */
  function Tick(c: Config, w: GameState, ms: int, pick: nat): (r: GameState)
    requires Ready(w)
    ensures Ready(r)
    ensures r.gameCounter == w.gameCounter + ms
    ensures SameShape(w.grid, r.grid)
    ensures w.audio <= r.audio
    ensures |r.players| == |w.players|
  {
    var w1 := CleanUp(w, ms);
    var w2 := UpdateBombs(c, w1, ms);
    ShapeStep(w.grid, w1.grid, w2.grid);
    SameShapeKeepsRectangular(w.grid, w2.grid);
    var w3 := UpdatePlayers(c, w2, ms);
    ShapeStep(w.grid, w2.grid, w3.grid);
    SameShapeKeepsRectangular(w.grid, w3.grid);
    var r := HoleStep(c, w3, ms, pick);
    ShapeStep(w.grid, w3.grid, r.grid);
    SameShapeKeepsRectangular(w.grid, r.grid);
    r
  }

  /**
    Across a tick, dead players are untouched, and no player changes name,
    gains a life or comes back to life.
   */
  lemma TickKeepsPlayers(c: Config, w: GameState, ms: int, pick: nat)
    requires Ready(w)
    ensures var r := Tick(c, w, ms, pick);
              && |r.players| == |w.players|
              && (forall k :: 0 <= k < |w.players| && !w.players[k].alive ==> r.players[k] == w.players[k])
              && forall k :: 0 <= k < |w.players| ==>
                   && r.players[k].name == w.players[k].name
                   && r.players[k].lives <= w.players[k].lives
                   && (r.players[k].alive ==> w.players[k].alive)
  {
    var w2 := UpdateBombs(c, CleanUp(w, ms), ms);
    var w3 := UpdatePlayers(c, w2, ms);
    SameShapeKeepsRectangular(w.grid, w3.grid);
    PlayersStep(w.players, w3.players, HoleStep(c, w3, ms, pick).players);
  }

  lemma ShapeStep(g1: Map, g2: Map, g3: Map)
    requires SameShape(g1, g2) && SameShape(g2, g3)
    ensures SameShape(g1, g3)
  {
  }

  lemma PlayersStep(ps: seq<Player>, ps': seq<Player>, ps'': seq<Player>)
    requires |ps'| == |ps| && ps'' == ps'
    requires forall k :: 0 <= k < |ps| && !ps[k].alive ==> ps'[k] == ps[k]
    requires forall k :: 0 <= k < |ps| ==>
              && ps'[k].name == ps[k].name
              && ps'[k].lives <= ps[k].lives
              && (ps'[k].alive ==> ps[k].alive)
    ensures |ps''| == |ps|
    ensures forall k :: 0 <= k < |ps| && !ps[k].alive ==> ps''[k] == ps[k]
    ensures forall k :: 0 <= k < |ps| ==>
              && ps''[k].name == ps[k].name
              && ps''[k].lives <= ps[k].lives
              && (ps''[k].alive ==> ps[k].alive)
  {
  }

  /** update(): a tick of the default length, 1000 ms. */
  function TickDefault(c: Config, w: GameState, pick: nat): (r: GameState)
    requires Ready(w)
    ensures Ready(r)
    ensures r.gameCounter == w.gameCounter + 1000
    ensures SameShape(w.grid, r.grid)
  {
    Tick(c, w, 1000, pick)
  }

  /** Clearing power-ups leaves every timer's tile (a Blast tile) alone. */
  lemma PowerUpsKeepTimerInvariant(g: Map, g': Map, ts: seq<BlastTimer>)
    requires TimerInvariant(g, ts) && OnlyPowerUpsCleared(g, g')
    ensures TimerInvariant(g', ts)
  {
    forall k | 0 <= k < |ts|
      ensures g'[ts[k].location.x][ts[k].location.y] == Blast
    {
      assert g[ts[k].location.x][ts[k].location.y] == Blast;
    }
  }

  /** A spawned hole lands on a non-Blast tile, so it leaves every timer's tile alone. */
  lemma HoleKeepsTimerInvariant(c: Config, players: seq<Player>, aggressive: bool, g: Map, g': Map, ts: seq<BlastTimer>)
    requires TimerInvariant(g, ts) && HolePlaced(c, players, aggressive, g, g')
    ensures TimerInvariant(g', ts)
  {
    HoleSpareBlocking(c, players, aggressive, g, g');
    forall k | 0 <= k < |ts|
      ensures g'[ts[k].location.x][ts[k].location.y] == Blast
    {
      assert g[ts[k].location.x][ts[k].location.y] == Blast;
    }
  }

  /**
    A tick keeps the blast-timer invariant: every timer lies on a Blast tile,
    no two timers share a tile, and none will restore a Solid block.
   */
  lemma TickKeepsTimerInvariant(c: Config, w: GameState, ms: int, pick: nat)
    requires Ready(w) && TimerInvariant(w.grid, w.blasts)
    ensures TimerInvariant(Tick(c, w, ms, pick).grid, Tick(c, w, ms, pick).blasts)
  {
    var w1 := CleanUp(w, ms);
    UpdateMapKeepsTimerInvariant(Arena(w.grid, w.blasts), ms);
    var w2 := UpdateBombs(c, w1, ms);
    UpdateBombsKeepsTimerInvariant(c, w1, ms);
    SameShapeKeepsRectangular(w.grid, w2.grid);
    var w3 := UpdatePlayers(c, w2, ms);
    PowerUpsKeepTimerInvariant(w2.grid, w3.grid, w3.blasts);
    SameShapeKeepsRectangular(w.grid, w3.grid);
    var r := HoleStep(c, w3, ms, pick);
    var gc := w3.gameCounter + ms;
    if gc >= c.secondPhaseBeginning {
      HoleKeepsTimerInvariant(c, w3.players, true, w3.grid, r.grid, w3.blasts);
    } else if gc >= c.firstPhaseBeginning {
      HoleKeepsTimerInvariant(c, w3.players, false, w3.grid, r.grid, w3.blasts);
    }
  }

  /**
    With the blast-timer invariant, a tick never destroys a Solid tile and
    never creates one: Solid walls are fixed for the whole game.
   */
  lemma TickKeepsSolid(c: Config, w: GameState, ms: int, pick: nat)
    requires Ready(w) && TimerInvariant(w.grid, w.blasts)
    ensures forall i, j :: InBounds(w.grid, i, j) ==>
              (Tick(c, w, ms, pick).grid[i][j] == Solid <==> w.grid[i][j] == Solid)
  {
    var w1 := CleanUp(w, ms);
    CleanUpKeepsSolid(w, ms);
    var w2 := UpdateBombs(c, w1, ms);
    BombsKeepSolid(c, w1, ms);
    SolidFixedTransitive(w.grid, w1.grid, w2.grid);
    SameShapeKeepsRectangular(w.grid, w2.grid);
    var w3 := UpdatePlayers(c, w2, ms);
    PowerUpsKeepSolid(w2.grid, w3.grid);
    SolidFixedTransitive(w.grid, w2.grid, w3.grid);
    SameShapeKeepsRectangular(w.grid, w3.grid);
    HoleKeepsSolid(c, w3, ms, pick);
    SolidFixedTransitive(w.grid, w3.grid, HoleStep(c, w3, ms, pick).grid);
  }

  /** The map clean-up restores no Solid block, given that no timer would restore one. */
  lemma CleanUpKeepsSolid(w: GameState, ms: int)
    requires TimerInvariant(w.grid, w.blasts)
    ensures SolidFixed(w.grid, CleanUp(w, ms).grid)
  {
    var a := Arena(w.grid, w.blasts);
    UpdateMapRestores(a, ms);
    forall i, j | InBounds(w.grid, i, j)
      ensures CleanUp(w, ms).grid[i][j] == Solid <==> w.grid[i][j] == Solid
    {
      if k :| 0 <= k < |w.blasts| && w.blasts[k].timer - ms <= 0 && w.blasts[k].location == Point(i, j) {
        assert w.grid[i][j] == Blast;
      }
    }
  }

  /** The bomb phase turns tiles only into Blast and keeps Solid tiles. */
  lemma BombsKeepSolid(c: Config, w: GameState, ms: int)
    ensures SolidFixed(w.grid, UpdateBombs(c, w, ms).grid)
  {
  }

  /** A hole never replaces a Solid tile and is never Solid itself. */
  lemma HoleKeepsSolid(c: Config, w: GameState, ms: int, pick: nat)
    requires Rectangular(w.grid)
    ensures SolidFixed(w.grid, HoleStep(c, w, ms, pick).grid)
  {
  }
}

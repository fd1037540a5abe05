/**
  The world the physics engine mutates: players, bombs, blast timers, the
  audio-event log and the hole counters, plus the game constants.
 */
module Entities {
  import opened Geometry
  import opened Grid

  /**
    The engine's Constants. Their values are not part of this model; each is a
    parameter, and a property that depends on a sign says so.
   */
  datatype Config = Config(
    playerWidth: int, playerHeight: int,
    bombWidth: int, bombHeight: int,
    explosionLength: int, defaultBombTime: int, invulnerabilityLength: int,
    minimumBombRange: int, maximumBombRange: int, bombRangeChange: int,
    lowSpeed: int, defaultSpeed: int, highSpeed: int,
    firstPhaseBeginning: int, firstPhaseTimer: int,
    secondPhaseBeginning: int, secondPhaseTimer: int)

  /** Movement requested by a player's KeyState. */
  datatype Movement = Still | Up | Down | Left | Right

  /** One snapshot of a player's input for a tick. */
  datatype KeyState = KeyState(movement: Movement, bomb: bool)

  /** Pixel position of the player's top-left corner; `speed` is in pixels per second. */
  datatype Player = Player(
    name: string, id: int, pos: Point,
    lives: int, alive: bool,
    speed: int, maxBombs: int, bombRange: int,
    invulnerability: int, keys: KeyState)

  /** A bomb at a pixel position with `time` milliseconds of fuse left. */
  datatype Bomb = Bomb(owner: string, ownerId: int, pos: Point, time: int, radius: int)

  /** A blasted tile that restores the block `restore` once `timer` runs out. */
  datatype BlastTimer = BlastTimer(location: Point, timer: int, restore: Block) {
    predicate IsDone() {
      timer <= 0
    }
  }

  datatype AudioEvent = PlaceBomb | Explosion | PlayerDeath | PowerUp

  /** `n` copies of one audio event, as appended by `n` passes through the same statement. */
  function Repeat(e: AudioEvent, n: nat): (r: seq<AudioEvent>)
    ensures |r| == n && forall k :: 0 <= k < n ==> r[k] == e
  {
    if n == 0 then [] else [e] + Repeat(e, n - 1)
  }

  /**
    GameState together with the engine's own okToPlaceBomb latches, which the
    engine keys by player name.
   */
  datatype GameState = GameState(
    grid: Map,
    players: seq<Player>,
    bombs: seq<Bomb>,
    blasts: seq<BlastTimer>,
    audio: seq<AudioEvent>,
    gameCounter: int,
    holeCounter: int,
    okToPlaceBomb: map<string, bool>)

  /** The part of the state an explosion and the map clean-up act on. */
  datatype Arena = Arena(grid: Map, blasts: seq<BlastTimer>)

  /** No two blast timers share a tile. */
  ghost predicate DistinctLocations(ts: seq<BlastTimer>) {
    forall k, m :: 0 <= k < m < |ts| ==> ts[k].location != ts[m].location
  }

  /**
    Every timer lies on the map, never restores a Solid block, and sits on a
    Blast tile unless its tile is in `pending` (tiles whose Blast is still to be
    written, during an explosion).
   */
  ghost predicate TimersPlacedExcept(g: Map, ts: seq<BlastTimer>, pending: set<Point>) {
    forall k :: 0 <= k < |ts| ==>
      && InBounds(g, ts[k].location.x, ts[k].location.y)
      && ts[k].restore != Solid
      && (ts[k].location !in pending ==> g[ts[k].location.x][ts[k].location.y] == Blast)
  }

  /**
    The blast-timer invariant: at most one timer per tile, each on a Blast
    tile, none revealing a Solid block.
   */
  ghost predicate TimerInvariant(g: Map, ts: seq<BlastTimer>) {
    TimersPlacedExcept(g, ts, {}) && DistinctLocations(ts)
  }

  /** Each player's name has an okToPlaceBomb latch, as the engine's constructor arranges. */
  ghost predicate LatchesCover(players: seq<Player>, latch: map<string, bool>) {
    forall i :: 0 <= i < |players| ==> players[i].name in latch
  }
}

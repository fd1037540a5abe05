/**
  Explosions (PhysicsEngine.addBlast and updateBlastList): a blast spreads
  from a tile in all four directions, or along one direction, one tile per
  unit of radius, and leaves a timer on every tile it turns into Blast.
 */
module Blast {
  import opened Geometry
  import opened Grid
  import opened Entities

  /** Index of the first timer at `pos`, or |ts| when there is none. */
  function FirstAt(ts: seq<BlastTimer>, pos: Point): (k: nat)
    ensures k <= |ts|
    ensures k < |ts| ==> ts[k].location == pos
    ensures forall j :: 0 <= j < k ==> ts[j].location != pos
  {
    if |ts| == 0 then 0
    else if ts[0].location == pos then 0
    else 1 + FirstAt(ts[1..], pos)
  }

  /**
    updateBlastList: a timer already at `pos` is restarted at the explosion
    length and keeps its block to restore; otherwise exactly one new timer is added.
   */
  function UpdateBlastList(c: Config, ts: seq<BlastTimer>, pos: Point, restore: Block): (r: seq<BlastTimer>)
    ensures (forall k :: 0 <= k < |ts| ==> ts[k].location != pos) ==>
              r == ts + [BlastTimer(pos, c.explosionLength, restore)]
    ensures (exists k :: 0 <= k < |ts| && ts[k].location == pos) ==>
              && |r| == |ts|
              && (forall k :: 0 <= k < |ts| ==> r[k].location == ts[k].location && r[k].restore == ts[k].restore)
              && (forall k :: 0 <= k < |ts| && ts[k].location != pos ==> r[k] == ts[k])
              && (exists k :: 0 <= k < |ts| && ts[k].location == pos && r[k].timer == c.explosionLength)
  {
    var k := FirstAt(ts, pos);
    if k < |ts| then ts[k := ts[k].(timer := c.explosionLength)]
    else ts + [BlastTimer(pos, c.explosionLength, restore)]
  }

  /** Every tile is at most one timer in a list whose locations are distinct. */
  lemma UpdateBlastListKeepsDistinct(c: Config, ts: seq<BlastTimer>, pos: Point, restore: Block)
    requires DistinctLocations(ts)
    ensures DistinctLocations(UpdateBlastList(c, ts, pos, restore))
    ensures exists k :: 0 <= k < |UpdateBlastList(c, ts, pos, restore)| && UpdateBlastList(c, ts, pos, restore)[k].location == pos
  {
    var r := UpdateBlastList(c, ts, pos, restore);
    if k :| 0 <= k < |ts| && ts[k].location == pos {
      assert r[k].location == pos;
    } else {
      assert r[|ts|].location == pos;
    }
  }

  /**
    The tiles a blast started at (x, y) may reach: the whole row and column for
    direction 0, the ray up (1), right (2), down (3) or left (4), and just the
    start tile for any other direction.
   */
  predicate OnPath(x: int, y: int, direction: int, i: int, j: int) {
    if direction == 0 then i == x || j == y
    else if direction == 1 then i == x && j <= y
    else if direction == 2 then j == y && i >= x
    else if direction == 3 then i == x && j >= y
    else if direction == 4 then j == y && i <= x
    else i == x && j == y
  }

  /** Tiles left before a ray in `direction` leaves the map; bounds the recursion. */
  function Reach(g: Map, x: int, y: int, direction: int): nat {
    if direction == 1 then (if y >= 0 then y + 1 else 0)
    else if direction == 2 then (if x < |g| then |g| - x else 0)
    else if direction == 3 then (if 0 <= x < |g| && y < |g[x]| then |g[x]| - y else 0)
    else if direction == 4 then (if x >= 0 then x + 1 else 0)
    else 0
  }

  /** The neighbouring tile in a propagation direction: 1 up, 2 right, 3 down, 4 left. */
  function Next(x: int, y: int, direction: int): Point
    requires 1 <= direction <= 4
  {
    if direction == 1 then Point(x, y - 1)
    else if direction == 2 then Point(x + 1, y)
    else if direction == 3 then Point(x, y + 1)
    else Point(x - 1, y)
  }

  /** What addBlast does on its own tile, before the blast spreads any further. */
  datatype TileOutcome = Skip | Stop(stopped: Arena) | Pass(marked: Arena)

  /**
    addBlast on its own tile. Off the map, at radius 0 or on a Solid tile
    nothing happens. A Soft tile gets a new timer revealing Blank, becomes
    Blast and stops the blast. Any other tile gets its timer (revealing Hole
    for a hole, otherwise through updateBlastList revealing Blank) and lets
    the blast through; it becomes Blast once the blast has spread beyond it.
   */
  function TileStep(c: Config, a: Arena, x: int, y: int, radius: int): (s: TileOutcome)
    ensures s.Skip? <==> !InBounds(a.grid, x, y) || radius == 0 || a.grid[x][y] == Solid
    ensures s.Stop? <==> InBounds(a.grid, x, y) && radius != 0 && a.grid[x][y] == Soft
    ensures s.Pass? ==> s.marked.grid == a.grid && Passable(a.grid, Point(x, y))
    ensures s.Stop? ==>
              && s.stopped.blasts == a.blasts + [BlastTimer(Point(x, y), c.explosionLength, Blank)]
              && s.stopped.grid == SetCell(a.grid, Point(x, y), Blast)
    ensures s.Pass? && a.grid[x][y] == Hole ==>
              s.marked.blasts == a.blasts + [BlastTimer(Point(x, y), c.explosionLength, Hole)]
    ensures s.Pass? && a.grid[x][y] != Hole ==>
              s.marked.blasts == UpdateBlastList(c, a.blasts, Point(x, y), Blank)
  {
    var g := a.grid;
    var here := Point(x, y);
    if !InBounds(g, x, y) || radius == 0 || g[x][y] == Solid then Skip
    else if g[x][y] == Soft then Stop(Burn(Arena(g, a.blasts + [BlastTimer(here, c.explosionLength, Blank)]), x, y))
    else Pass(Arena(g, MarkTimer(c, a.blasts, here, g[x][y])))
  }

  /** The last statement of addBlast: its own tile becomes Blast. */
  function Burn(a: Arena, x: int, y: int): (r: Arena)
    ensures SameShape(a.grid, r.grid) && r.blasts == a.blasts
  {
    Arena(SetCell(a.grid, Point(x, y), Blast), a.blasts)
  }

  /**
    addBlast for a direction 1..4: the tile itself, and unless it stopped the
    blast, the rest of the line from the next tile with the radius one lower.
   */
  function Line(c: Config, a: Arena, x: int, y: int, radius: int, direction: int): (r: Arena)
    requires 1 <= direction <= 4
    decreases Reach(a.grid, x, y, direction)
    ensures SameShape(a.grid, r.grid)
    ensures !InBounds(a.grid, x, y) || radius == 0 || a.grid[x][y] == Solid ==> r == a
  {
    match TileStep(c, a, x, y, radius)
    case Skip => a
    case Stop(r) => r
    case Pass(a1) =>
      var n := Next(x, y, direction);
      Burn(Line(c, a1, n.x, n.y, radius - 1, direction), x, y)
  }

  /** The four arms of an explosion, in the order up, right, down, left, each one tile shorter. */
  function Cross(c: Config, a: Arena, x: int, y: int, radius: int): (r: Arena)
    ensures SameShape(a.grid, r.grid)
  {
    var up := Line(c, a, x, y - 1, radius - 1, 1);
    var right := Line(c, up, x + 1, y, radius - 1, 2);
    var down := Line(c, right, x, y + 1, radius - 1, 3);
    Line(c, down, x - 1, y, radius - 1, 4)
  }

  /**
    addBlast(x, y, radius, direction): direction 0 spreads in all four
    directions, 1..4 along one line, and any other direction only hits its
    own tile.
   */
  function AddBlast(c: Config, a: Arena, x: int, y: int, radius: int, direction: int): (r: Arena)
    ensures SameShape(a.grid, r.grid)
    ensures !InBounds(a.grid, x, y) || radius == 0 || a.grid[x][y] == Solid ==> r == a
  {
    if 1 <= direction <= 4 then Line(c, a, x, y, radius, direction)
    else
      match TileStep(c, a, x, y, radius)
      case Skip => a
      case Stop(r) => r
      case Pass(a1) => Burn(if direction == 0 then Cross(c, a1, x, y, radius) else a1, x, y)
  }

  /** The timer a blast leaves on a tile it passes through: a hole is restored, anything else cleared. */
  function MarkTimer(c: Config, ts: seq<BlastTimer>, here: Point, b: Block): seq<BlastTimer> {
    if b == Hole then ts + [BlastTimer(here, c.explosionLength, Hole)]
    else UpdateBlastList(c, ts, here, Blank)
  }

  /**
    What a blast along the path of (x, y, direction) may do: keep the map's
    shape, turn only path tiles into Blast, leave Solid tiles alone, keep each
    existing timer's tile and block (touching only timers on the path), and add
    timers only on path tiles, restoring Blank or Hole.
   */
  ghost predicate BlastEffect(a: Arena, r: Arena, x: int, y: int, direction: int) {
    && SameShape(a.grid, r.grid)
    && (forall i, j :: InBounds(a.grid, i, j) && r.grid[i][j] != a.grid[i][j] ==>
          r.grid[i][j] == Blast && OnPath(x, y, direction, i, j))
    && (forall i, j :: InBounds(a.grid, i, j) && a.grid[i][j] == Solid ==> r.grid[i][j] == Solid)
    && |a.blasts| <= |r.blasts|
    && (forall k :: 0 <= k < |a.blasts| ==>
          r.blasts[k].location == a.blasts[k].location && r.blasts[k].restore == a.blasts[k].restore)
    && (forall k :: 0 <= k < |a.blasts| && !OnPath(x, y, direction, a.blasts[k].location.x, a.blasts[k].location.y) ==>
          r.blasts[k] == a.blasts[k])
    && (forall k :: |a.blasts| <= k < |r.blasts| ==>
          && InBounds(a.grid, r.blasts[k].location.x, r.blasts[k].location.y)
          && OnPath(x, y, direction, r.blasts[k].location.x, r.blasts[k].location.y)
          && (r.blasts[k].restore == Blank || r.blasts[k].restore == Hole))
  }

  lemma BlastEffectTransitive(a: Arena, b: Arena, r: Arena, x: int, y: int, direction: int)
    requires BlastEffect(a, b, x, y, direction) && BlastEffect(b, r, x, y, direction)
    ensures BlastEffect(a, r, x, y, direction)
  {
    forall k | |a.blasts| <= k < |r.blasts|
      ensures InBounds(a.grid, r.blasts[k].location.x, r.blasts[k].location.y)
    {
      if k < |b.blasts| {
        assert r.blasts[k].location == b.blasts[k].location;
      }
    }
  }

  lemma BlastEffectWiden(a: Arena, r: Arena, x': int, y': int, d': int, x: int, y: int, direction: int)
    requires BlastEffect(a, r, x', y', d')
    requires forall i, j :: OnPath(x', y', d', i, j) ==> OnPath(x, y, direction, i, j)
    ensures BlastEffect(a, r, x, y, direction)
  {
  }

  /** Each arm lies on the cross. */
  lemma ArmsOnCross(x: int, y: int)
    ensures forall i, j :: OnPath(x, y - 1, 1, i, j) ==> OnPath(x, y, 0, i, j)
    ensures forall i, j :: OnPath(x + 1, y, 2, i, j) ==> OnPath(x, y, 0, i, j)
    ensures forall i, j :: OnPath(x, y + 1, 3, i, j) ==> OnPath(x, y, 0, i, j)
    ensures forall i, j :: OnPath(x - 1, y, 4, i, j) ==> OnPath(x, y, 0, i, j)
  {
  }

  /** The rest of a line lies on the line, and its start does not. */
  lemma LineContinues(x: int, y: int, direction: int)
    requires 1 <= direction <= 4
    ensures forall i, j :: OnPath(Next(x, y, direction).x, Next(x, y, direction).y, direction, i, j) ==>
              OnPath(x, y, direction, i, j)
    ensures !OnPath(Next(x, y, direction).x, Next(x, y, direction).y, direction, x, y)
  {
  }

  lemma MarkTimerEffect(c: Config, a: Arena, x: int, y: int, direction: int)
    requires InBounds(a.grid, x, y)
    ensures BlastEffect(a, Arena(a.grid, MarkTimer(c, a.blasts, Point(x, y), a.grid[x][y])), x, y, direction)
  {
  }

  lemma BurnEffect(a: Arena, x: int, y: int, direction: int)
    requires InBounds(a.grid, x, y) && a.grid[x][y] != Solid
    ensures BlastEffect(a, Burn(a, x, y), x, y, direction)
  {
  }

  /** The tile step stays on its own tile. */
  lemma TileStepEffect(c: Config, a: Arena, x: int, y: int, radius: int, direction: int)
    ensures TileStep(c, a, x, y, radius).Stop? ==> BlastEffect(a, TileStep(c, a, x, y, radius).stopped, x, y, direction)
    ensures TileStep(c, a, x, y, radius).Pass? ==> BlastEffect(a, TileStep(c, a, x, y, radius).marked, x, y, direction)
  {
    match TileStep(c, a, x, y, radius)
    case Skip =>
    case Stop(r) =>
      var a1 := Arena(a.grid, a.blasts + [BlastTimer(Point(x, y), c.explosionLength, Blank)]);
      assert BlastEffect(a, a1, x, y, direction);
      BurnEffect(a1, x, y, direction);
      BlastEffectTransitive(a, a1, r, x, y, direction);
    case Pass(_) =>
      MarkTimerEffect(c, a, x, y, direction);
  }

  /** The tile step followed by the Blast write, around whatever the spread `a2` did to the marked arena `a1`. */
  lemma FinishEffect(a: Arena, a1: Arena, a2: Arena, x: int, y: int, direction: int)
    requires InBounds(a.grid, x, y) && a.grid[x][y] != Solid
    requires BlastEffect(a, a1, x, y, direction) && BlastEffect(a1, a2, x, y, direction)
    ensures BlastEffect(a, Burn(a2, x, y), x, y, direction)
  {
    BlastEffectTransitive(a, a1, a2, x, y, direction);
    assert a2.grid[x][y] != Solid;
    BurnEffect(a2, x, y, direction);
    BlastEffectTransitive(a, a2, Burn(a2, x, y), x, y, direction);
  }

  /** A line blast only turns tiles of its line into Blast and leaves timers only on its line. */
  lemma {:induction false} LineEffect(c: Config, a: Arena, x: int, y: int, radius: int, direction: int)
    requires 1 <= direction <= 4
    decreases Reach(a.grid, x, y, direction)
    ensures BlastEffect(a, Line(c, a, x, y, radius, direction), x, y, direction)
  {
    TileStepEffect(c, a, x, y, radius, direction);
    match TileStep(c, a, x, y, radius)
    case Skip =>
    case Stop(_) =>
    case Pass(a1) =>
      var n := Next(x, y, direction);
      var a2 := Line(c, a1, n.x, n.y, radius - 1, direction);
      LineContinues(x, y, direction);
      LineEffect(c, a1, n.x, n.y, radius - 1, direction);
      BlastEffectWiden(a1, a2, n.x, n.y, direction, x, y, direction);
      FinishEffect(a, a1, a2, x, y, direction);
  }

  lemma CrossEffect(c: Config, a: Arena, x: int, y: int, radius: int)
    ensures BlastEffect(a, Cross(c, a, x, y, radius), x, y, 0)
  {
    ArmsOnCross(x, y);
    var up := Line(c, a, x, y - 1, radius - 1, 1);
    LineEffect(c, a, x, y - 1, radius - 1, 1);
    BlastEffectWiden(a, up, x, y - 1, 1, x, y, 0);
    var right := Line(c, up, x + 1, y, radius - 1, 2);
    LineEffect(c, up, x + 1, y, radius - 1, 2);
    BlastEffectWiden(up, right, x + 1, y, 2, x, y, 0);
    BlastEffectTransitive(a, up, right, x, y, 0);
    var down := Line(c, right, x, y + 1, radius - 1, 3);
    LineEffect(c, right, x, y + 1, radius - 1, 3);
    BlastEffectWiden(right, down, x, y + 1, 3, x, y, 0);
    BlastEffectTransitive(a, right, down, x, y, 0);
    var left := Line(c, down, x - 1, y, radius - 1, 4);
    LineEffect(c, down, x - 1, y, radius - 1, 4);
    BlastEffectWiden(down, left, x - 1, y, 4, x, y, 0);
    BlastEffectTransitive(a, down, left, x, y, 0);
  }

  /**
    addBlast only ever turns tiles on its path into Blast, never touches a
    Solid tile, and adds or restarts timers only on its path.
   */
  lemma AddBlastEffect(c: Config, a: Arena, x: int, y: int, radius: int, direction: int)
    ensures BlastEffect(a, AddBlast(c, a, x, y, radius, direction), x, y, direction)
  {
    if 1 <= direction <= 4 {
      LineEffect(c, a, x, y, radius, direction);
    } else {
      TileStepEffect(c, a, x, y, radius, direction);
      match TileStep(c, a, x, y, radius)
      case Skip =>
      case Stop(_) =>
      case Pass(a1) =>
        if direction == 0 {
          CrossEffect(c, a1, x, y, radius);
          FinishEffect(a, a1, Cross(c, a1, x, y, radius), x, y, direction);
        } else {
          BurnEffect(a1, x, y, direction);
          BlastEffectTransitive(a, a1, Burn(a1, x, y), x, y, direction);
        }
    }
  }

  lemma ArmsAvoidCentre(x: int, y: int)
    ensures !OnPath(x, y - 1, 1, x, y) && !OnPath(x + 1, y, 2, x, y)
    ensures !OnPath(x, y + 1, 3, x, y) && !OnPath(x - 1, y, 4, x, y)
  {
  }

  /** The timer left on a tile that is about to become Blast breaks no invariant but that one tile's. */
  lemma MarkTimerPlaced(c: Config, a: Arena, x: int, y: int, pending: set<Point>)
    requires TimersPlacedExcept(a.grid, a.blasts, pending) && DistinctLocations(a.blasts)
    requires InBounds(a.grid, x, y) && a.grid[x][y] != Solid && a.grid[x][y] != Blast
    requires Point(x, y) !in pending
    ensures TimersPlacedExcept(a.grid, MarkTimer(c, a.blasts, Point(x, y), a.grid[x][y]), pending + {Point(x, y)})
    ensures DistinctLocations(MarkTimer(c, a.blasts, Point(x, y), a.grid[x][y]))
  {
    var here := Point(x, y);
    assert forall k :: 0 <= k < |a.blasts| ==> a.blasts[k].location != here;
  }

  lemma MarkTimerPlacedOnBlast(c: Config, a: Arena, x: int, y: int, pending: set<Point>)
    requires TimersPlacedExcept(a.grid, a.blasts, pending) && DistinctLocations(a.blasts)
    requires InBounds(a.grid, x, y) && a.grid[x][y] == Blast
    ensures TimersPlacedExcept(a.grid, MarkTimer(c, a.blasts, Point(x, y), a.grid[x][y]), pending + {Point(x, y)})
    ensures DistinctLocations(MarkTimer(c, a.blasts, Point(x, y), a.grid[x][y]))
  {
    UpdateBlastListKeepsDistinct(c, a.blasts, Point(x, y), Blank);
  }

  lemma BurnPlaced(a: Arena, x: int, y: int, pending: set<Point>)
    requires TimersPlacedExcept(a.grid, a.blasts, pending + {Point(x, y)})
    ensures TimersPlacedExcept(Burn(a, x, y).grid, a.blasts, pending)
  {
  }

  /**
    The tile step keeps the timers placed: a stopped blast leaves its tile
    Blast with one timer on it, and a passing one leaves a timer on its tile,
    which is pending until the Blast write.
   */
  lemma TileStepPlaced(c: Config, a: Arena, x: int, y: int, radius: int, pending: set<Point>)
    requires TimersPlacedExcept(a.grid, a.blasts, pending) && DistinctLocations(a.blasts)
    requires Point(x, y) !in pending
    ensures TileStep(c, a, x, y, radius).Stop? ==>
              && TimersPlacedExcept(TileStep(c, a, x, y, radius).stopped.grid, TileStep(c, a, x, y, radius).stopped.blasts, pending)
              && DistinctLocations(TileStep(c, a, x, y, radius).stopped.blasts)
    ensures TileStep(c, a, x, y, radius).Pass? ==>
              && TimersPlacedExcept(TileStep(c, a, x, y, radius).marked.grid, TileStep(c, a, x, y, radius).marked.blasts, pending + {Point(x, y)})
              && DistinctLocations(TileStep(c, a, x, y, radius).marked.blasts)
  {
    match TileStep(c, a, x, y, radius)
    case Skip =>
    case Stop(_) =>
      assert forall k :: 0 <= k < |a.blasts| ==> a.blasts[k].location != Point(x, y);
    case Pass(_) =>
      if a.grid[x][y] == Blast {
        MarkTimerPlacedOnBlast(c, a, x, y, pending);
      } else {
        MarkTimerPlaced(c, a, x, y, pending);
      }
  }

  /**
    Reveal uniqueness along a line: if every timer sits on a Blast tile (tiles
    in `pending`, off the line, excepted) and no two share a tile, the same
    holds after the line blast.
   */
  lemma {:induction false} LineKeepsTimersPlaced(c: Config, a: Arena, x: int, y: int, radius: int, direction: int, pending: set<Point>)
    requires 1 <= direction <= 4
    decreases Reach(a.grid, x, y, direction)
    requires TimersPlacedExcept(a.grid, a.blasts, pending) && DistinctLocations(a.blasts)
    requires forall q :: q in pending ==> !OnPath(x, y, direction, q.x, q.y)
    ensures TimersPlacedExcept(Line(c, a, x, y, radius, direction).grid, Line(c, a, x, y, radius, direction).blasts, pending)
    ensures DistinctLocations(Line(c, a, x, y, radius, direction).blasts)
  {
    assert Point(x, y) !in pending;
    TileStepPlaced(c, a, x, y, radius, pending);
    match TileStep(c, a, x, y, radius)
    case Skip =>
    case Stop(_) =>
    case Pass(a1) =>
      var n := Next(x, y, direction);
      LineContinues(x, y, direction);
      LineKeepsTimersPlaced(c, a1, n.x, n.y, radius - 1, direction, pending + {Point(x, y)});
      BurnPlaced(Line(c, a1, n.x, n.y, radius - 1, direction), x, y, pending);
  }

  lemma CrossKeepsTimersPlaced(c: Config, a: Arena, x: int, y: int, radius: int, pending: set<Point>)
    requires TimersPlacedExcept(a.grid, a.blasts, pending) && DistinctLocations(a.blasts)
    requires forall q :: q in pending ==> !OnPath(x, y, 0, q.x, q.y) || q == Point(x, y)
    ensures TimersPlacedExcept(Cross(c, a, x, y, radius).grid, Cross(c, a, x, y, radius).blasts, pending)
    ensures DistinctLocations(Cross(c, a, x, y, radius).blasts)
  {
    ArmsOnCross(x, y);
    ArmsAvoidCentre(x, y);
    var up := Line(c, a, x, y - 1, radius - 1, 1);
    LineKeepsTimersPlaced(c, a, x, y - 1, radius - 1, 1, pending);
    var right := Line(c, up, x + 1, y, radius - 1, 2);
    LineKeepsTimersPlaced(c, up, x + 1, y, radius - 1, 2, pending);
    var down := Line(c, right, x, y + 1, radius - 1, 3);
    LineKeepsTimersPlaced(c, right, x, y + 1, radius - 1, 3, pending);
    LineKeepsTimersPlaced(c, down, x - 1, y, radius - 1, 4, pending);
  }

  /** A whole explosion, started from a tile in all directions, keeps the blast-timer invariant. */
  lemma AddBlastKeepsTimerInvariant(c: Config, a: Arena, x: int, y: int, radius: int)
    requires TimerInvariant(a.grid, a.blasts)
    ensures TimerInvariant(AddBlast(c, a, x, y, radius, 0).grid, AddBlast(c, a, x, y, radius, 0).blasts)
  {
    TileStepPlaced(c, a, x, y, radius, {});
    match TileStep(c, a, x, y, radius)
    case Skip =>
    case Stop(_) =>
    case Pass(a1) =>
      CrossKeepsTimersPlaced(c, a1, x, y, radius, {Point(x, y)});
      BurnPlaced(Cross(c, a1, x, y, radius), x, y, {});
  }

  /** The tile `k` steps from (x, y) along a propagation direction 1..4. */
  function Along(x: int, y: int, direction: int, k: int): Point
    requires 1 <= direction <= 4
  {
    if direction == 1 then Point(x, y - k)
    else if direction == 2 then Point(x + k, y)
    else if direction == 3 then Point(x, y + k)
    else Point(x - k, y)
  }

  /** A tile a blast line passes through: on the map and neither Soft nor Solid. */
  predicate Passable(g: Map, p: Point) {
    InBounds(g, p.x, p.y) && g[p.x][p.y] != Soft && g[p.x][p.y] != Solid
  }

  /** The tile k > 0 steps along a line is the tile k - 1 steps from the next one, and not the start. */
  lemma AlongStep(x: int, y: int, direction: int, k: int)
    requires 1 <= direction <= 4 && k > 0
    ensures Along(x, y, direction, k) == Along(Next(x, y, direction).x, Next(x, y, direction).y, direction, k - 1)
    ensures Along(x, y, direction, k) != Point(x, y)
  {
  }

  /**
    The map a line blast leaves, ignoring timers: its tiles turn into Blast up
    to and including the first Soft tile, stopping before a Solid tile, the
    map's edge or the end of the radius.
   */
  function Ray(g: Map, x: int, y: int, radius: int, direction: int): (r: Map)
    requires 1 <= direction <= 4
    decreases Reach(g, x, y, direction)
    ensures SameShape(g, r)
  {
    if !InBounds(g, x, y) || radius == 0 || g[x][y] == Solid then g
    else if g[x][y] == Soft then SetCell(g, Point(x, y), Blast)
    else SetCell(Ray(g, Next(x, y, direction).x, Next(x, y, direction).y, radius - 1, direction), Point(x, y), Blast)
  }

  /** The map a line blast leaves does not depend on the timers: it is the Ray. */
  lemma {:induction false} LineGrid(c: Config, a: Arena, x: int, y: int, radius: int, direction: int)
    requires 1 <= direction <= 4
    decreases Reach(a.grid, x, y, direction)
    ensures Line(c, a, x, y, radius, direction).grid == Ray(a.grid, x, y, radius, direction)
  {
    match TileStep(c, a, x, y, radius)
    case Skip =>
    case Stop(_) =>
    case Pass(a1) =>
      LineGrid(c, a1, Next(x, y, direction).x, Next(x, y, direction).y, radius - 1, direction);
  }

  /**
    Blast containment along a line: a tile k steps down the line changes only
    if k is below the radius (when the radius is positive) and every tile
    before it lets the blast through, so a Soft or Solid tile ends the line.
   */
  lemma {:induction false} RayContainment(g: Map, x: int, y: int, radius: int, direction: int, k: nat)
    requires 1 <= direction <= 4
    requires InBounds(g, Along(x, y, direction, k).x, Along(x, y, direction, k).y)
    requires Ray(g, x, y, radius, direction)[Along(x, y, direction, k).x][Along(x, y, direction, k).y]
             != g[Along(x, y, direction, k).x][Along(x, y, direction, k).y]
    ensures radius > 0 ==> k < radius
    ensures forall m :: 0 <= m < k ==> Passable(g, Along(x, y, direction, m))
    decreases k
  {
    if k > 0 {
      var n := Next(x, y, direction);
      var p := Along(x, y, direction, k);
      AlongStep(x, y, direction, k);
      assert Ray(g, n.x, n.y, radius - 1, direction)[p.x][p.y] != g[p.x][p.y];
      RayContainment(g, n.x, n.y, radius - 1, direction, k - 1);
      PassableShift(g, x, y, direction, k);
    }
  }

  /** A line is passable up to k when its start is and the line from the next tile is, up to k - 1. */
  lemma PassableShift(g: Map, x: int, y: int, direction: int, k: nat)
    requires 1 <= direction <= 4 && k > 0
    requires Passable(g, Point(x, y))
    requires forall m :: 0 <= m < k - 1 ==> Passable(g, Along(Next(x, y, direction).x, Next(x, y, direction).y, direction, m))
    ensures forall m :: 0 <= m < k ==> Passable(g, Along(x, y, direction, m))
  {
    forall m | 0 <= m < k
      ensures Passable(g, Along(x, y, direction, m))
    {
      if m > 0 {
        AlongStep(x, y, direction, m);
      }
    }
  }

  /** A Soft or Solid tile on a blast line shields every tile behind it. */
  lemma SoftOrSolidShields(c: Config, a: Arena, x: int, y: int, radius: int, direction: int, m: nat, k: nat)
    requires 1 <= direction <= 4 && m < k
    requires !Passable(a.grid, Along(x, y, direction, m))
    requires InBounds(a.grid, Along(x, y, direction, k).x, Along(x, y, direction, k).y)
    ensures AddBlast(c, a, x, y, radius, direction).grid[Along(x, y, direction, k).x][Along(x, y, direction, k).y]
            == a.grid[Along(x, y, direction, k).x][Along(x, y, direction, k).y]
  {
    var p := Along(x, y, direction, k);
    LineGrid(c, a, x, y, radius, direction);
    if Ray(a.grid, x, y, radius, direction)[p.x][p.y] != a.grid[p.x][p.y] {
      RayContainment(a.grid, x, y, radius, direction, k);
    }
  }

  // ---------------------------------------------------------------- what a blast reaches

  /**
    The tile k steps from (x, y) along `direction` is within a blast's reach
    on map `g`: k is below the radius (any k when the radius is negative,
    since it then never counts down to 0), the tile is on the map and not
    Solid, and every tile before it lets the blast through.
   */
  ghost predicate Reachable(g: Map, x: int, y: int, radius: int, direction: int, k: nat)
    requires 1 <= direction <= 4
  {
    && (radius < 0 || k < radius)
    && InBounds(g, Along(x, y, direction, k).x, Along(x, y, direction, k).y)
    && g[Along(x, y, direction, k).x][Along(x, y, direction, k).y] != Solid
    && forall m :: 0 <= m < k ==> Passable(g, Along(x, y, direction, m))
  }

  /** The map `g'` differs from `g` at most by tiles that became Blast. */
  ghost predicate OnlyBlasted(g: Map, g': Map) {
    && SameShape(g, g')
    && forall i, j :: InBounds(g, i, j) && g'[i][j] != g[i][j] ==> g'[i][j] == Blast
  }

  lemma OnlyBlastedTransitive(g1: Map, g2: Map, g3: Map)
    requires OnlyBlasted(g1, g2) && OnlyBlasted(g2, g3)
    ensures OnlyBlasted(g1, g3)
  {
  }

  /** Reach from a tile k > 0 steps out is reach from the next tile, one step shorter and one radius lower. */
  lemma ReachableShift(g: Map, x: int, y: int, radius: int, direction: int, k: nat)
    requires 1 <= direction <= 4 && k > 0
    requires Reachable(g, x, y, radius, direction, k)
    ensures Passable(g, Point(x, y)) && radius != 0
    ensures Along(x, y, direction, k) == Along(Next(x, y, direction).x, Next(x, y, direction).y, direction, k - 1)
    ensures Reachable(g, Next(x, y, direction).x, Next(x, y, direction).y, radius - 1, direction, k - 1)
  {
    var n := Next(x, y, direction);
    assert Along(x, y, direction, 0) == Point(x, y);
    AlongStep(x, y, direction, k);
    forall m | 0 <= m < k - 1
      ensures Passable(g, Along(n.x, n.y, direction, m))
    {
      AlongStep(x, y, direction, m + 1);
    }
  }

  /** Blasting tiles only opens a path: whatever was within reach stays within reach. */
  lemma ReachableWiden(g: Map, g': Map, x: int, y: int, radius: int, direction: int, k: nat)
    requires 1 <= direction <= 4
    requires Reachable(g, x, y, radius, direction, k) && OnlyBlasted(g, g')
    ensures Reachable(g', x, y, radius, direction, k)
  {
  }

  /**
    The converse of RayContainment: a tile within reach of a line blast
    becomes Blast.
   */
  lemma {:induction false} RayReach(g: Map, x: int, y: int, radius: int, direction: int, k: nat)
    requires 1 <= direction <= 4
    requires Reachable(g, x, y, radius, direction, k)
    ensures Ray(g, x, y, radius, direction)[Along(x, y, direction, k).x][Along(x, y, direction, k).y] == Blast
    decreases k
  {
    if k > 0 {
      var n := Next(x, y, direction);
      ReachableShift(g, x, y, radius, direction, k);
      RayReach(g, n.x, n.y, radius - 1, direction, k - 1);
    }
  }

  /** addBlast along one direction turns every tile within its reach into Blast. */
  lemma LineReach(c: Config, a: Arena, x: int, y: int, radius: int, direction: int, k: nat)
    requires 1 <= direction <= 4
    requires Reachable(a.grid, x, y, radius, direction, k)
    ensures Line(c, a, x, y, radius, direction).grid[Along(x, y, direction, k).x][Along(x, y, direction, k).y] == Blast
  {
    LineGrid(c, a, x, y, radius, direction);
    RayReach(a.grid, x, y, radius, direction, k);
  }

  /** A directional blast changes tiles only into Blast. */
  lemma LineBlasts(c: Config, a: Arena, x: int, y: int, radius: int, direction: int)
    requires 1 <= direction <= 4
    ensures OnlyBlasted(a.grid, Line(c, a, x, y, radius, direction).grid)
  {
    LineEffect(c, a, x, y, radius, direction);
  }

  /** A later blast never clears a Blast tile. */
  lemma BlastKept(g: Map, g': Map, p: Point)
    requires OnlyBlasted(g, g') && InBounds(g, p.x, p.y) && g[p.x][p.y] == Blast
    ensures InBounds(g', p.x, p.y) && g'[p.x][p.y] == Blast
  {
  }

  /** A Blast tile stays Blast through a later line blast. */
  lemma LineKeepsBlast(c: Config, a: Arena, x: int, y: int, radius: int, direction: int, p: Point)
    requires 1 <= direction <= 4
    requires InBounds(a.grid, p.x, p.y) && a.grid[p.x][p.y] == Blast
    ensures Line(c, a, x, y, radius, direction).grid[p.x][p.y] == Blast
  {
    LineBlasts(c, a, x, y, radius, direction);
    BlastKept(a.grid, Line(c, a, x, y, radius, direction).grid, p);
  }

  /** A Blast tile stays Blast through the last two arms of a cross. */
  lemma LastArmsKeepBlast(c: Config, right: Arena, x: int, y: int, radius: int, p: Point)
    requires InBounds(right.grid, p.x, p.y) && right.grid[p.x][p.y] == Blast
    ensures Line(c, Line(c, right, x, y + 1, radius - 1, 3), x - 1, y, radius - 1, 4).grid[p.x][p.y] == Blast
  {
    var down := Line(c, right, x, y + 1, radius - 1, 3);
    LineKeepsBlast(c, right, x, y + 1, radius - 1, 3, p);
    LineKeepsBlast(c, down, x - 1, y, radius - 1, 4, p);
  }

  /** A Blast tile of the up arm's result stays Blast through the other three arms. */
  lemma AfterUpKeepsBlast(c: Config, a: Arena, x: int, y: int, radius: int, p: Point)
    requires var up := Line(c, a, x, y - 1, radius - 1, 1);
             InBounds(up.grid, p.x, p.y) && up.grid[p.x][p.y] == Blast
    ensures InBounds(a.grid, p.x, p.y) && Cross(c, a, x, y, radius).grid[p.x][p.y] == Blast
  {
    var up := Line(c, a, x, y - 1, radius - 1, 1);
    LineKeepsBlast(c, up, x + 1, y, radius - 1, 2, p);
    LastArmsKeepBlast(c, Line(c, up, x + 1, y, radius - 1, 2), x, y, radius, p);
  }

  lemma UpArmReach(c: Config, a: Arena, x: int, y: int, radius: int, k: nat)
    requires Reachable(a.grid, x, y - 1, radius - 1, 1, k)
    ensures Cross(c, a, x, y, radius).grid[Along(x, y - 1, 1, k).x][Along(x, y - 1, 1, k).y] == Blast
  {
    LineReach(c, a, x, y - 1, radius - 1, 1, k);
    AfterUpKeepsBlast(c, a, x, y, radius, Along(x, y - 1, 1, k));
  }

  /** A Blast tile of the right arm's result stays Blast through the last two arms. */
  lemma AfterRightKeepsBlast(c: Config, a: Arena, x: int, y: int, radius: int, p: Point)
    requires var right := Line(c, Line(c, a, x, y - 1, radius - 1, 1), x + 1, y, radius - 1, 2);
             InBounds(right.grid, p.x, p.y) && right.grid[p.x][p.y] == Blast
    ensures InBounds(a.grid, p.x, p.y) && Cross(c, a, x, y, radius).grid[p.x][p.y] == Blast
  {
    LastArmsKeepBlast(c, Line(c, Line(c, a, x, y - 1, radius - 1, 1), x + 1, y, radius - 1, 2), x, y, radius, p);
  }

  lemma RightArmReach(c: Config, a: Arena, x: int, y: int, radius: int, k: nat)
    requires Reachable(a.grid, x + 1, y, radius - 1, 2, k)
    ensures Cross(c, a, x, y, radius).grid[Along(x + 1, y, 2, k).x][Along(x + 1, y, 2, k).y] == Blast
  {
    var up := Line(c, a, x, y - 1, radius - 1, 1);
    LineBlasts(c, a, x, y - 1, radius - 1, 1);
    ReachableWiden(a.grid, up.grid, x + 1, y, radius - 1, 2, k);
    LineReach(c, up, x + 1, y, radius - 1, 2, k);
    AfterRightKeepsBlast(c, a, x, y, radius, Along(x + 1, y, 2, k));
  }

  lemma DownArmReach(c: Config, a: Arena, x: int, y: int, radius: int, k: nat)
    requires Reachable(a.grid, x, y + 1, radius - 1, 3, k)
    ensures Cross(c, a, x, y, radius).grid[Along(x, y + 1, 3, k).x][Along(x, y + 1, 3, k).y] == Blast
  {
    var p := Along(x, y + 1, 3, k);
    var up := Line(c, a, x, y - 1, radius - 1, 1);
    var right := Line(c, up, x + 1, y, radius - 1, 2);
    var down := Line(c, right, x, y + 1, radius - 1, 3);
    LineBlasts(c, a, x, y - 1, radius - 1, 1);
    LineBlasts(c, up, x + 1, y, radius - 1, 2);
    OnlyBlastedTransitive(a.grid, up.grid, right.grid);
    ReachableWiden(a.grid, right.grid, x, y + 1, radius - 1, 3, k);
    LineReach(c, right, x, y + 1, radius - 1, 3, k);
    LineKeepsBlast(c, down, x - 1, y, radius - 1, 4, p);
  }

  lemma LeftArmReach(c: Config, a: Arena, x: int, y: int, radius: int, k: nat)
    requires Reachable(a.grid, x - 1, y, radius - 1, 4, k)
    ensures Cross(c, a, x, y, radius).grid[Along(x - 1, y, 4, k).x][Along(x - 1, y, 4, k).y] == Blast
  {
    var up := Line(c, a, x, y - 1, radius - 1, 1);
    var right := Line(c, up, x + 1, y, radius - 1, 2);
    var down := Line(c, right, x, y + 1, radius - 1, 3);
    LineBlasts(c, a, x, y - 1, radius - 1, 1);
    LineBlasts(c, up, x + 1, y, radius - 1, 2);
    LineBlasts(c, right, x, y + 1, radius - 1, 3);
    OnlyBlastedTransitive(a.grid, up.grid, right.grid);
    OnlyBlastedTransitive(a.grid, right.grid, down.grid);
    ReachableWiden(a.grid, down.grid, x - 1, y, radius - 1, 4, k);
    LineReach(c, down, x - 1, y, radius - 1, 4, k);
  }

  /** Each arm of a cross blasts the tiles within its reach from the tile next to the centre. */
  lemma CrossArmReach(c: Config, a: Arena, x: int, y: int, radius: int, direction: int, k: nat)
    requires 1 <= direction <= 4
    requires Reachable(a.grid, Next(x, y, direction).x, Next(x, y, direction).y, radius - 1, direction, k)
    ensures var p := Along(Next(x, y, direction).x, Next(x, y, direction).y, direction, k);
            Cross(c, a, x, y, radius).grid[p.x][p.y] == Blast
  {
    if direction == 1 {
      UpArmReach(c, a, x, y, radius, k);
    } else if direction == 2 {
      RightArmReach(c, a, x, y, radius, k);
    } else if direction == 3 {
      DownArmReach(c, a, x, y, radius, k);
    } else {
      LeftArmReach(c, a, x, y, radius, k);
    }
  }

  /**
    An explosion (direction 0) turns its own tile and every tile within reach
    along any of its four arms into Blast; k = 0 is the centre itself.
   */
  lemma CrossReach(c: Config, a: Arena, x: int, y: int, radius: int, direction: int, k: nat)
    requires 1 <= direction <= 4
    requires Reachable(a.grid, x, y, radius, direction, k)
    ensures AddBlast(c, a, x, y, radius, 0).grid[Along(x, y, direction, k).x][Along(x, y, direction, k).y] == Blast
  {
    assert Along(x, y, direction, 0) == Point(x, y);
    if k > 0 {
      var p := Along(x, y, direction, k);
      ReachableShift(a.grid, x, y, radius, direction, k);
      AlongStep(x, y, direction, k);
      var a1 := TileStep(c, a, x, y, radius).marked;
      CrossArmReach(c, a1, x, y, radius, direction, k - 1);
      assert AddBlast(c, a, x, y, radius, 0) == Burn(Cross(c, a1, x, y, radius), x, y);
    }
  }

  /** The timer a blast leaves on a tile it passes through sits on that tile. */
  lemma MarkTimerMarks(c: Config, ts: seq<BlastTimer>, here: Point, b: Block)
    ensures exists k :: 0 <= k < |MarkTimer(c, ts, here, b)| && MarkTimer(c, ts, here, b)[k].location == here
  {
    var r := MarkTimer(c, ts, here, b);
    if b == Hole || forall k :: 0 <= k < |ts| ==> ts[k].location != here {
      assert r[|r| - 1].location == here;
    }
  }

  /** An explosion on a tile it can blast leaves a timer on that tile. */
  lemma CentreTimer(c: Config, a: Arena, x: int, y: int, radius: int)
    requires InBounds(a.grid, x, y) && radius != 0 && a.grid[x][y] != Solid
    ensures exists k :: 0 <= k < |AddBlast(c, a, x, y, radius, 0).blasts| &&
                        AddBlast(c, a, x, y, radius, 0).blasts[k].location == Point(x, y)
  {
    match TileStep(c, a, x, y, radius)
    case Stop(r) =>
      assert AddBlast(c, a, x, y, radius, 0) == r;
      assert r.blasts[|a.blasts|].location == Point(x, y);
    case Pass(a1) =>
      assert a1.blasts == MarkTimer(c, a.blasts, Point(x, y), a.grid[x][y]);
      MarkTimerMarks(c, a.blasts, Point(x, y), a.grid[x][y]);
      var k :| 0 <= k < |a1.blasts| && a1.blasts[k].location == Point(x, y);
      CrossEffect(c, a1, x, y, radius);
      assert AddBlast(c, a, x, y, radius, 0) == Burn(Cross(c, a1, x, y, radius), x, y);
      assert Burn(Cross(c, a1, x, y, radius), x, y).blasts[k].location == Point(x, y);
  }

  // ---------------------------------------------------------------- what a blast cannot reach

  /** A line blast leaves every tile off its path alone. */
  lemma LineOff(c: Config, b: Arena, x: int, y: int, radius: int, direction: int, q: Point)
    requires 1 <= direction <= 4
    requires InBounds(b.grid, q.x, q.y) && !OnPath(x, y, direction, q.x, q.y)
    ensures Line(c, b, x, y, radius, direction).grid[q.x][q.y] == b.grid[q.x][q.y]
  {
    LineEffect(c, b, x, y, radius, direction);
  }

  /** The converse of LineReach: a tile a line blast changes is within its reach. */
  lemma LineContainment(c: Config, a: Arena, x: int, y: int, radius: int, direction: int, k: nat)
    requires 1 <= direction <= 4
    requires InBounds(a.grid, Along(x, y, direction, k).x, Along(x, y, direction, k).y)
    requires Line(c, a, x, y, radius, direction).grid[Along(x, y, direction, k).x][Along(x, y, direction, k).y]
             != a.grid[Along(x, y, direction, k).x][Along(x, y, direction, k).y]
    ensures Reachable(a.grid, x, y, radius, direction, k)
  {
    LineGrid(c, a, x, y, radius, direction);
    LineEffect(c, a, x, y, radius, direction);
    RayContainment(a.grid, x, y, radius, direction, k);
  }

  /** Reach from the next tile, one radius lower, past a passable start is reach from the start. */
  lemma ReachableUnshift(g: Map, x: int, y: int, radius: int, direction: int, k: nat)
    requires 1 <= direction <= 4 && k > 0
    requires Passable(g, Point(x, y)) && radius != 0
    requires Reachable(g, Next(x, y, direction).x, Next(x, y, direction).y, radius - 1, direction, k - 1)
    ensures Reachable(g, x, y, radius, direction, k)
  {
    var n := Next(x, y, direction);
    AlongStep(x, y, direction, k);
    assert Along(x, y, direction, 0) == Point(x, y);
    forall m | 0 < m < k
      ensures Passable(g, Along(x, y, direction, m))
    {
      AlongStep(x, y, direction, m);
      assert Passable(g, Along(n.x, n.y, direction, m - 1));
    }
  }

  /** Two maps that agree on the tiles 0..k of a line give the same reach to its k-th tile. */
  lemma ReachableAgree(g: Map, g': Map, x: int, y: int, radius: int, direction: int, k: nat)
    requires 1 <= direction <= 4 && SameShape(g, g')
    requires forall m :: 0 <= m <= k && InBounds(g, Along(x, y, direction, m).x, Along(x, y, direction, m).y) ==>
               g'[Along(x, y, direction, m).x][Along(x, y, direction, m).y] == g[Along(x, y, direction, m).x][Along(x, y, direction, m).y]
    requires Reachable(g', x, y, radius, direction, k)
    ensures Reachable(g, x, y, radius, direction, k)
  {
    forall m | 0 <= m < k
      ensures Passable(g, Along(x, y, direction, m))
    {
      assert Passable(g', Along(x, y, direction, m));
    }
  }

  /** The last two arms of a cross leave a tile off both their paths alone. */
  lemma LastArmsOff(c: Config, right: Arena, x: int, y: int, radius: int, p: Point)
    requires InBounds(right.grid, p.x, p.y) && !OnPath(x, y + 1, 3, p.x, p.y) && !OnPath(x - 1, y, 4, p.x, p.y)
    ensures Line(c, Line(c, right, x, y + 1, radius - 1, 3), x - 1, y, radius - 1, 4).grid[p.x][p.y] == right.grid[p.x][p.y]
  {
    LineOff(c, right, x, y + 1, radius - 1, 3, p);
    LineOff(c, Line(c, right, x, y + 1, radius - 1, 3), x - 1, y, radius - 1, 4, p);
  }

  /** The last three arms of a cross leave a tile off all their paths alone. */
  lemma LaterArmsOff(c: Config, up: Arena, x: int, y: int, radius: int, p: Point)
    requires InBounds(up.grid, p.x, p.y) && p.x == x && p.y < y
    ensures Line(c, Line(c, Line(c, up, x + 1, y, radius - 1, 2), x, y + 1, radius - 1, 3), x - 1, y, radius - 1, 4).grid[p.x][p.y]
            == up.grid[p.x][p.y]
  {
    var right := Line(c, up, x + 1, y, radius - 1, 2);
    LineOff(c, up, x + 1, y, radius - 1, 2, p);
    LastArmsOff(c, right, x, y, radius, p);
  }

  /** A tile on the up arm is changed by the cross only as the up arm changes it. */
  lemma AfterUpOff(c: Config, a: Arena, x: int, y: int, radius: int, p: Point)
    requires InBounds(a.grid, p.x, p.y) && p.x == x && p.y < y
    ensures Cross(c, a, x, y, radius).grid[p.x][p.y] == Line(c, a, x, y - 1, radius - 1, 1).grid[p.x][p.y]
  {
    var up := Line(c, a, x, y - 1, radius - 1, 1);
    assert Cross(c, a, x, y, radius)
        == Line(c, Line(c, Line(c, up, x + 1, y, radius - 1, 2), x, y + 1, radius - 1, 3), x - 1, y, radius - 1, 4);
    LaterArmsOff(c, up, x, y, radius, p);
  }

  /** A tile on the right arm is changed by the cross only as the right arm changes it. */
  lemma AfterRightOff(c: Config, a: Arena, x: int, y: int, radius: int, p: Point)
    requires InBounds(a.grid, p.x, p.y) && p.y == y && p.x > x
    ensures Cross(c, a, x, y, radius).grid[p.x][p.y]
            == Line(c, Line(c, a, x, y - 1, radius - 1, 1), x + 1, y, radius - 1, 2).grid[p.x][p.y]
  {
    LastArmsOff(c, Line(c, Line(c, a, x, y - 1, radius - 1, 1), x + 1, y, radius - 1, 2), x, y, radius, p);
  }

  /** A tile on the down arm is changed by the cross only as the down arm changes it. */
  lemma AfterDownOff(c: Config, a: Arena, x: int, y: int, radius: int, p: Point)
    requires InBounds(a.grid, p.x, p.y) && p.x == x && p.y > y
    ensures var right := Line(c, Line(c, a, x, y - 1, radius - 1, 1), x + 1, y, radius - 1, 2);
            Cross(c, a, x, y, radius).grid[p.x][p.y] == Line(c, right, x, y + 1, radius - 1, 3).grid[p.x][p.y]
  {
    var right := Line(c, Line(c, a, x, y - 1, radius - 1, 1), x + 1, y, radius - 1, 2);
    LineOff(c, Line(c, right, x, y + 1, radius - 1, 3), x - 1, y, radius - 1, 4, p);
  }

  lemma RightArmContainment(c: Config, a: Arena, x: int, y: int, radius: int, k: nat)
    requires InBounds(a.grid, x + 1 + k, y)
    requires Cross(c, a, x, y, radius).grid[x + 1 + k][y] != a.grid[x + 1 + k][y]
    ensures Reachable(a.grid, x + 1, y, radius - 1, 2, k)
  {
    var sx := x + 1;
    var up := Line(c, a, x, y - 1, radius - 1, 1);
    AfterRightOff(c, a, x, y, radius, Point(x + 1 + k, y));
    forall m | 0 <= m <= k && InBounds(a.grid, Along(sx, y, 2, m).x, Along(sx, y, 2, m).y)
      ensures up.grid[Along(sx, y, 2, m).x][Along(sx, y, 2, m).y] == a.grid[Along(sx, y, 2, m).x][Along(sx, y, 2, m).y]
    {
      LineOff(c, a, x, y - 1, radius - 1, 1, Along(sx, y, 2, m));
    }
    assert Along(sx, y, 2, k) == Point(x + 1 + k, y);
    LineContainment(c, up, sx, y, radius - 1, 2, k);
    ReachableAgree(a.grid, up.grid, sx, y, radius - 1, 2, k);
  }

  lemma DownArmContainment(c: Config, a: Arena, x: int, y: int, radius: int, k: nat)
    requires InBounds(a.grid, x, y + 1 + k)
    requires Cross(c, a, x, y, radius).grid[x][y + 1 + k] != a.grid[x][y + 1 + k]
    ensures Reachable(a.grid, x, y + 1, radius - 1, 3, k)
  {
    var sy := y + 1;
    var up := Line(c, a, x, y - 1, radius - 1, 1);
    var right := Line(c, up, x + 1, y, radius - 1, 2);
    AfterDownOff(c, a, x, y, radius, Point(x, y + 1 + k));
    forall m | 0 <= m <= k && InBounds(a.grid, Along(x, sy, 3, m).x, Along(x, sy, 3, m).y)
      ensures right.grid[Along(x, sy, 3, m).x][Along(x, sy, 3, m).y] == a.grid[Along(x, sy, 3, m).x][Along(x, sy, 3, m).y]
    {
      LineOff(c, a, x, y - 1, radius - 1, 1, Along(x, sy, 3, m));
      LineOff(c, up, x + 1, y, radius - 1, 2, Along(x, sy, 3, m));
    }
    assert Along(x, sy, 3, k) == Point(x, y + 1 + k);
    LineContainment(c, right, x, sy, radius - 1, 3, k);
    ReachableAgree(a.grid, right.grid, x, sy, radius - 1, 3, k);
  }

  /** The right and down arms of a cross leave a tile on the left arm alone. */
  lemma MiddleArmsOff(c: Config, up: Arena, x: int, y: int, radius: int, q: Point)
    requires InBounds(up.grid, q.x, q.y) && q.y == y && q.x < x
    ensures Line(c, Line(c, up, x + 1, y, radius - 1, 2), x, y + 1, radius - 1, 3).grid[q.x][q.y] == up.grid[q.x][q.y]
  {
    LineOff(c, up, x + 1, y, radius - 1, 2, q);
    LineOff(c, Line(c, up, x + 1, y, radius - 1, 2), x, y + 1, radius - 1, 3, q);
  }

  /** The first three arms of a cross leave a tile on the left arm alone. */
  lemma FirstArmsOff(c: Config, a: Arena, x: int, y: int, radius: int, q: Point)
    requires InBounds(a.grid, q.x, q.y) && q.y == y && q.x < x
    ensures Line(c, Line(c, Line(c, a, x, y - 1, radius - 1, 1), x + 1, y, radius - 1, 2), x, y + 1, radius - 1, 3).grid[q.x][q.y]
            == a.grid[q.x][q.y]
  {
    LineOff(c, a, x, y - 1, radius - 1, 1, q);
    MiddleArmsOff(c, Line(c, a, x, y - 1, radius - 1, 1), x, y, radius, q);
  }

  lemma LeftArmContainment(c: Config, a: Arena, x: int, y: int, radius: int, k: nat)
    requires InBounds(a.grid, x - 1 - k, y)
    requires Cross(c, a, x, y, radius).grid[x - 1 - k][y] != a.grid[x - 1 - k][y]
    ensures Reachable(a.grid, x - 1, y, radius - 1, 4, k)
  {
    var sx := x - 1;
    var down := Line(c, Line(c, Line(c, a, x, y - 1, radius - 1, 1), x + 1, y, radius - 1, 2), x, y + 1, radius - 1, 3);
    assert Line(c, down, sx, y, radius - 1, 4).grid[x - 1 - k][y] != a.grid[x - 1 - k][y] by {
      assert Cross(c, a, x, y, radius) == Line(c, down, sx, y, radius - 1, 4);
    }
    forall m | 0 <= m <= k && InBounds(a.grid, Along(sx, y, 4, m).x, Along(sx, y, 4, m).y)
      ensures down.grid[Along(sx, y, 4, m).x][Along(sx, y, 4, m).y] == a.grid[Along(sx, y, 4, m).x][Along(sx, y, 4, m).y]
    {
      FirstArmsOff(c, a, x, y, radius, Along(sx, y, 4, m));
    }
    assert Along(sx, y, 4, k) == Point(x - 1 - k, y);
    LineContainment(c, down, sx, y, radius - 1, 4, k);
    ReachableAgree(a.grid, down.grid, sx, y, radius - 1, 4, k);
  }

  /** A tile other than the centre that an explosion changes was changed by its cross of arms. */
  lemma AddBlastOffCentre(c: Config, a: Arena, x: int, y: int, radius: int, i: int, j: int)
    requires InBounds(a.grid, i, j) && (i != x || j != y)
    requires AddBlast(c, a, x, y, radius, 0).grid[i][j] != a.grid[i][j]
    ensures TileStep(c, a, x, y, radius).Pass? && radius != 0 && Passable(a.grid, Point(x, y))
    ensures TileStep(c, a, x, y, radius).marked.grid == a.grid
    ensures Cross(c, TileStep(c, a, x, y, radius).marked, x, y, radius).grid[i][j] != a.grid[i][j]
  {
    assert TileStep(c, a, x, y, radius).Pass?;
    var a1 := TileStep(c, a, x, y, radius).marked;
    assert AddBlast(c, a, x, y, radius, 0) == Burn(Cross(c, a1, x, y, radius), x, y);
  }

  /** A tile the up arm changes is within reach from the centre. */
  lemma UpLineFromCentre(c: Config, a: Arena, x: int, y: int, radius: int, j: int)
    requires InBounds(a.grid, x, j) && j < y && Passable(a.grid, Point(x, y)) && radius != 0
    requires Line(c, a, x, y - 1, radius - 1, 1).grid[x][j] != a.grid[x][j]
    ensures Point(x, j) == Along(x, y, 1, y - j) && Reachable(a.grid, x, y, radius, 1, y - j)
  {
    var sy, k := y - 1, y - j - 1;
    assert Reachable(a.grid, x, sy, radius - 1, 1, k) by {
      assert Along(x, sy, 1, k) == Point(x, j);
      LineContainment(c, a, x, sy, radius - 1, 1, k);
    }
    assert Next(x, y, 1) == Point(x, sy);
    ReachableUnshift(a.grid, x, y, radius, 1, k + 1);
  }

  /** A tile of one arm that a cross of arms changes is within reach from the centre. */
  lemma UpArmFromCentre(c: Config, a: Arena, x: int, y: int, radius: int, j: int)
    requires InBounds(a.grid, x, j) && j < y && Passable(a.grid, Point(x, y)) && radius != 0
    requires Cross(c, a, x, y, radius).grid[x][j] != a.grid[x][j]
    ensures Point(x, j) == Along(x, y, 1, y - j) && Reachable(a.grid, x, y, radius, 1, y - j)
  {
    AfterUpOff(c, a, x, y, radius, Point(x, j));
    UpLineFromCentre(c, a, x, y, radius, j);
  }

  lemma RightArmFromCentre(c: Config, a: Arena, x: int, y: int, radius: int, i: int)
    requires InBounds(a.grid, i, y) && i > x && Passable(a.grid, Point(x, y)) && radius != 0
    requires Cross(c, a, x, y, radius).grid[i][y] != a.grid[i][y]
    ensures Point(i, y) == Along(x, y, 2, i - x) && Reachable(a.grid, x, y, radius, 2, i - x)
  {
    assert Reachable(a.grid, x + 1, y, radius - 1, 2, i - x - 1) by {
      RightArmContainment(c, a, x, y, radius, i - x - 1);
    }
    assert Next(x, y, 2) == Point(x + 1, y);
    ReachableUnshift(a.grid, x, y, radius, 2, i - x);
  }

  lemma DownArmFromCentre(c: Config, a: Arena, x: int, y: int, radius: int, j: int)
    requires InBounds(a.grid, x, j) && j > y && Passable(a.grid, Point(x, y)) && radius != 0
    requires Cross(c, a, x, y, radius).grid[x][j] != a.grid[x][j]
    ensures Point(x, j) == Along(x, y, 3, j - y) && Reachable(a.grid, x, y, radius, 3, j - y)
  {
    assert Reachable(a.grid, x, y + 1, radius - 1, 3, j - y - 1) by {
      DownArmContainment(c, a, x, y, radius, j - y - 1);
    }
    assert Next(x, y, 3) == Point(x, y + 1);
    ReachableUnshift(a.grid, x, y, radius, 3, j - y);
  }

  lemma LeftArmFromCentre(c: Config, a: Arena, x: int, y: int, radius: int, i: int)
    requires InBounds(a.grid, i, y) && i < x && Passable(a.grid, Point(x, y)) && radius != 0
    requires Cross(c, a, x, y, radius).grid[i][y] != a.grid[i][y]
    ensures Point(i, y) == Along(x, y, 4, x - i) && Reachable(a.grid, x, y, radius, 4, x - i)
  {
    assert Reachable(a.grid, x - 1, y, radius - 1, 4, x - i - 1) by {
      LeftArmContainment(c, a, x, y, radius, x - i - 1);
    }
    assert Next(x, y, 4) == Point(x - 1, y);
    ReachableUnshift(a.grid, x, y, radius, 4, x - i);
  }

  /** A tile a cross of arms changes lies within reach along one of the arms. */
  lemma ArmsContainment(c: Config, a: Arena, x: int, y: int, radius: int, i: int, j: int)
    requires InBounds(a.grid, i, j) && (i != x || j != y) && (i == x || j == y)
    requires Passable(a.grid, Point(x, y)) && radius != 0
    requires Cross(c, a, x, y, radius).grid[i][j] != a.grid[i][j]
    ensures exists d, k: nat :: 1 <= d <= 4 && Point(i, j) == Along(x, y, d, k) && Reachable(a.grid, x, y, radius, d, k)
  {
    if i == x && j < y {
      UpArmFromCentre(c, a, x, y, radius, j);
    } else if j == y && i > x {
      RightArmFromCentre(c, a, x, y, radius, i);
    } else if i == x {
      DownArmFromCentre(c, a, x, y, radius, j);
    } else {
      LeftArmFromCentre(c, a, x, y, radius, i);
    }
  }

  /**
    The converse of CrossReach: a tile an explosion (direction 0) changes is
    its own tile or lies within reach along one of its four arms. With
    CrossReach this is an if-and-only-if for the tiles that were not Blast.
   */
  lemma CrossContainment(c: Config, a: Arena, x: int, y: int, radius: int, i: int, j: int)
    requires InBounds(a.grid, i, j)
    requires AddBlast(c, a, x, y, radius, 0).grid[i][j] != a.grid[i][j]
    ensures exists d, k: nat :: 1 <= d <= 4 && Point(i, j) == Along(x, y, d, k) && Reachable(a.grid, x, y, radius, d, k)
  {
    if i == x && j == y {
      assert Point(i, j) == Along(x, y, 1, 0);
      assert Reachable(a.grid, x, y, radius, 1, 0);
    } else {
      AddBlastEffect(c, a, x, y, radius, 0);
      AddBlastOffCentre(c, a, x, y, radius, i, j);
      ArmsContainment(c, TileStep(c, a, x, y, radius).marked, x, y, radius, i, j);
    }
  }

  /** Distinct steps along the four directions reach distinct tiles, apart from the centre. */
  lemma AlongUnique(x: int, y: int, d: int, k: nat, d': int, k': nat)
    requires 1 <= d <= 4 && 1 <= d' <= 4 && k > 0
    requires Along(x, y, d, k) == Along(x, y, d', k')
    ensures d == d' && k == k'
  {
  }

  /**
    An explosion's counterpart of SoftOrSolidShields: on each arm, a tile that
    is not Passable shields every tile behind it, which keeps its block.
   */
  lemma CrossShields(c: Config, a: Arena, x: int, y: int, radius: int, direction: int, m: nat, k: nat)
    requires 1 <= direction <= 4 && m < k
    requires InBounds(a.grid, Along(x, y, direction, k).x, Along(x, y, direction, k).y)
    ensures !Passable(a.grid, Along(x, y, direction, m)) ==>
              AddBlast(c, a, x, y, radius, 0).grid[Along(x, y, direction, k).x][Along(x, y, direction, k).y]
              == a.grid[Along(x, y, direction, k).x][Along(x, y, direction, k).y]
  {
    var p := Along(x, y, direction, k);
    if AddBlast(c, a, x, y, radius, 0).grid[p.x][p.y] != a.grid[p.x][p.y] {
      CrossContainment(c, a, x, y, radius, p.x, p.y);
      var d: int, k': nat :| 1 <= d <= 4 && p == Along(x, y, d, k') && Reachable(a.grid, x, y, radius, d, k');
      AlongUnique(x, y, direction, k, d, k');
      assert Passable(a.grid, Along(x, y, direction, m));
    }
  }
}

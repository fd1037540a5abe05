/**
  Movement and collision of one player (the movement half of
  PhysicsEngine.updatePlayer): translation along one axis, push-back out of
  Solid/Soft tiles corner by corner, corner-assist sliding, and push-back out
  of bombs the player walks into.
 */
module Collision {
  import opened Wrappers
  import opened Geometry
  import opened Grid
  import opened Entities

  function PlayerRect(c: Config, pos: Point): Rect {
    Rect(pos.x, pos.y, c.playerWidth, c.playerHeight)
  }

  function BombRect(c: Config, b: Bomb): Rect {
    Rect(b.pos.x, b.pos.y, c.bombWidth, c.bombHeight)
  }

  /** The tile under a pixel. */
  function TileAt(p: Point): Point {
    Point(TileOf(p.x), TileOf(p.y))
  }

  /** A pixel on a Solid or Soft tile. */
  predicate Blocked(g: Map, p: Point) {
    PixelBlockAt(g, p.x, p.y) == Some(Solid) || PixelBlockAt(g, p.x, p.y) == Some(Soft)
  }

  /** pointIsClear: the pixel is not on a Solid or Soft tile (pixels off the map are clear). */
  predicate PointIsClear(g: Map, x: int, y: int): (r: bool)
    ensures r <==> !InBounds(g, TileOf(x), TileOf(y)) ||
                   (g[TileOf(x)][TileOf(y)] != Solid && g[TileOf(x)][TileOf(y)] != Soft)
  {
    !Blocked(g, Point(x, y))
  }

  /**
    neighboursAreClear: the pixel and its four direct neighbours are clear.
    The neighbours only matter on a tile's border: for a pixel strictly
    inside a tile all five lie on the same tile.
   */
  predicate NeighboursAreClear(g: Map, p: Point): (r: bool)
    ensures r ==> PointIsClear(g, p.x, p.y)
    ensures 0 < p.x && 0 < p.y && 0 < p.x % Tile < Tile - 1 && 0 < p.y % Tile < Tile - 1 ==>
              (r <==> PointIsClear(g, p.x, p.y))
  {
    && PointIsClear(g, p.x, p.y)
    && PointIsClear(g, p.x + 1, p.y)
    && PointIsClear(g, p.x - 1, p.y)
    && PointIsClear(g, p.x, p.y + 1)
    && PointIsClear(g, p.x, p.y - 1)
  }

  /** The four corners of the player, in the order playerTouchesBlock tests them. */
  function Corners(c: Config, pos: Point): (r: seq<Point>)
    ensures |r| == 4
  {
    [ pos,
      Point(pos.x + c.playerWidth, pos.y + c.playerHeight),
      Point(pos.x, pos.y + c.playerHeight),
      Point(pos.x + c.playerWidth, pos.y) ]
  }

  /** A corner of the player lies on a tile holding `b`. */
  predicate CornerOn(g: Map, p: Point, b: Block) {
    PixelBlockAt(g, p.x, p.y) == Some(b)
  }

  /**
    The index, in the order top-left, bottom-right, bottom-left, top-right,
    of the first corner standing on a `b` tile; 4 when none does.
   */
  function FirstCorner(c: Config, g: Map, pos: Point, b: Block): (k: nat)
    ensures k <= 4
    ensures k < 4 ==> CornerOn(g, Corners(c, pos)[k], b)
    ensures forall j :: 0 <= j < k ==> !CornerOn(g, Corners(c, pos)[j], b)
  {
    var cs := Corners(c, pos);
    if CornerOn(g, cs[0], b) then 0
    else if CornerOn(g, cs[1], b) then 1
    else if CornerOn(g, cs[2], b) then 2
    else if CornerOn(g, cs[3], b) then 3
    else 4
  }

  /**
    playerTouchesBlock: the tile under the first corner, in the order of
    FirstCorner, that stands on a `b` tile; None when no corner does.
   */
  function PlayerTouchesBlock(c: Config, g: Map, pos: Point, b: Block): (r: Option<Point>)
    ensures r.None? <==> forall k :: 0 <= k < 4 ==> !CornerOn(g, Corners(c, pos)[k], b)
    ensures r.Some? ==> InBounds(g, r.value.x, r.value.y) && g[r.value.x][r.value.y] == b
    ensures r.Some? ==> r.value == TileAt(Corners(c, pos)[FirstCorner(c, g, pos, b)])
  {
    var k := FirstCorner(c, g, pos, b);
    if k < 4 then Some(TileAt(Corners(c, pos)[k])) else None
  }

  /** The heading of a requested movement. */
  function Travel(m: Movement): Heading
    requires m != Still
  {
    match m
    case Up => North
    case Down => South
    case Left => West
    case Right => East
  }

  /** Pixels left before a point moving along `h` leaves the map; bounds the push-back loop. */
  function Room(g: Map, p: Point, h: Heading): nat {
    match h
    case North => if p.y + Tile > 0 then p.y + Tile else 0
    case West => if p.x + Tile > 0 then p.x + Tile else 0
    case East => if Tile * |g| - p.x > 0 then Tile * |g| - p.x else 0
    case South =>
      var col := TileOf(p.x);
      if 0 <= col < |g| && Tile * |g[col]| - p.y > 0 then Tile * |g[col]| - p.y else 0
  }

  lemma BlockedHasRoom(g: Map, p: Point, h: Heading)
    requires Blocked(g, p)
    ensures Room(g, Offset(p, h, 1), h) < Room(g, p, h)
  {
    var q := TileOf(p.x);
    var r := TileOf(p.y);
    assert InBounds(g, q, r);
  }

  /**
    revertPosition as a step count: how many one-pixel steps along `from` the
    corner takes to leave Solid and Soft tiles. The corner is clear after that
    many steps and blocked at every step before.
   */
  function RevertSteps(g: Map, corner: Point, from: Heading): (k: nat)
    decreases Room(g, corner, from)
    ensures !Blocked(g, Offset(corner, from, k))
    ensures forall j :: 0 <= j < k ==> Blocked(g, Offset(corner, from, j))
  {
    if Blocked(g, corner) then
      BlockedHasRoom(g, corner, from);
      var k := RevertSteps(g, Offset(corner, from, 1), from);
      BlockedShift(g, corner, from, k);
      k + 1
    else 0
  }

  /** A corner blocked now and for the k steps after its first one is blocked for k + 1 steps. */
  lemma BlockedShift(g: Map, corner: Point, from: Heading, k: nat)
    requires Blocked(g, corner)
    requires forall j :: 0 <= j < k ==> Blocked(g, Offset(Offset(corner, from, 1), from, j))
    ensures !Blocked(g, Offset(Offset(corner, from, 1), from, k)) ==> !Blocked(g, Offset(corner, from, k + 1))
    ensures forall j :: 0 <= j < k + 1 ==> Blocked(g, Offset(corner, from, j))
  {
    assert Offset(Offset(corner, from, 1), from, k) == Offset(corner, from, k + 1);
    forall j | 0 <= j < k + 1
      ensures Blocked(g, Offset(corner, from, j))
    {
      if j > 0 {
        assert Offset(corner, from, j) == Offset(Offset(corner, from, 1), from, j - 1);
      }
    }
  }

  /**
    The player after the solid-block push-back, with the corners as the
    engine left them: each corner was pushed out with the player and then not
    updated by the later corners' push-backs.
   */
  datatype Resolved = Resolved(upLeft: Point, upRight: Point, downLeft: Point, downRight: Point, pos: Point, steps: nat)

  /**
    The four revertPosition calls in the engine's order: top-left, top-right,
    bottom-left, bottom-right, each corner taken from the player's position
    at that moment. Each corner is clear of Solid and Soft tiles once its own
    push-back ends, and the player has moved only backwards along `from`.
   */
  function ResolveSolids(c: Config, g: Map, p0: Point, from: Heading): (r: Resolved)
    ensures !Blocked(g, r.upLeft) && !Blocked(g, r.upRight) && !Blocked(g, r.downLeft) && !Blocked(g, r.downRight)
    ensures r.pos == Offset(p0, from, r.steps)
  {
    var q1 := PushOut(g, p0, from);
    var p1 := Offset(p0, from, q1.0);
    var q2 := PushOut(g, Point(p1.x + c.playerWidth, p1.y), from);
    var p2 := Offset(p0, from, q1.0 + q2.0);
    var q3 := PushOut(g, Point(p2.x, p2.y + c.playerHeight), from);
    var p3 := Offset(p0, from, q1.0 + q2.0 + q3.0);
    var q4 := PushOut(g, Point(p3.x + c.playerWidth, p3.y + c.playerHeight), from);
    var steps := q1.0 + q2.0 + q3.0 + q4.0;
    Resolved(q1.1, q2.1, q3.1, q4.1, Offset(p0, from, steps), steps)
  }

  /** One revertPosition call: the step count and the corner it leaves clear of Solid and Soft tiles. */
  function PushOut(g: Map, corner: Point, from: Heading): (r: (nat, Point))
    ensures r.1 == Offset(corner, from, r.0) && !Blocked(g, r.1)
  {
    var k := RevertSteps(g, corner, from);
    (k, Offset(corner, from, k))
  }

  /** The axis perpendicular to a movement, pointing toward its first leading corner. */
  function Slide(m: Movement): Heading
    requires m != Still
  {
    if m == Up || m == Down then West else North
  }

  lemma SlideIsPerpendicular(m: Movement)
    requires m != Still
    ensures Slide(m).Horizontal() != Travel(m).Horizontal()
  {
  }

  /** The two leading corners for a movement, the first one lying toward Slide(m). */
  function Leading(m: Movement, r: Resolved): (Point, Point)
    requires m != Still
  {
    match m
    case Up => (r.pos, r.upRight)
    case Down => (r.downLeft, r.downRight)
    case Left => (r.pos, r.downLeft)
    case Right => (r.upRight, r.downRight)
  }

  /**
    Corner helping: when exactly one of the two leading corners has clear
    neighbours, the player is moved by the displacement across the movement,
    toward that corner; otherwise it stays.
   */
  function CornerAssist(g: Map, m: Movement, r: Resolved, disp: int): (p: Point)
    requires m != Still
    ensures p == r.pos || p == Offset(r.pos, Slide(m), disp) || p == Offset(r.pos, Slide(m).Opposite(), disp)
    ensures NeighboursAreClear(g, Leading(m, r).0) == NeighboursAreClear(g, Leading(m, r).1) ==> p == r.pos
    ensures NeighboursAreClear(g, Leading(m, r).0) && !NeighboursAreClear(g, Leading(m, r).1) ==>
              p == Offset(r.pos, Slide(m), disp)
    ensures !NeighboursAreClear(g, Leading(m, r).0) && NeighboursAreClear(g, Leading(m, r).1) ==>
              p == Offset(r.pos, Slide(m).Opposite(), disp)
  {
    var (first, second) := Leading(m, r);
    if NeighboursAreClear(g, first) && !NeighboursAreClear(g, second) then Offset(r.pos, Slide(m), disp)
    else if !NeighboursAreClear(g, first) && NeighboursAreClear(g, second) then Offset(r.pos, Slide(m).Opposite(), disp)
    else r.pos
  }

  /** Pixels left before the player, moving along `h`, has passed the bomb; bounds the bomb loop. */
  function Overlap(c: Config, pos: Point, br: Rect, h: Heading): nat {
    match h
    case South => if br.y + br.h - pos.y > 0 then br.y + br.h - pos.y else 0
    case North => if pos.y + c.playerHeight - br.y > 0 then pos.y + c.playerHeight - br.y else 0
    case East => if br.x + br.w - pos.x > 0 then br.x + br.w - pos.x else 0
    case West => if pos.x + c.playerWidth - br.x > 0 then pos.x + c.playerWidth - br.x else 0
  }

  /**
    The bomb push-back loop as a step count: how many one-pixel steps along
    `from` the player takes to stop overlapping the bomb. It overlaps at
    every step before.
   */
  function PushSteps(c: Config, pos: Point, br: Rect, from: Heading): (k: nat)
    decreases Overlap(c, pos, br, from)
    ensures !Intersects(br, PlayerRect(c, Offset(pos, from, k)))
    ensures forall j :: 0 <= j < k ==> Intersects(br, PlayerRect(c, Offset(pos, from, j)))
  {
    if Intersects(br, PlayerRect(c, pos)) then
      var k := PushSteps(c, Offset(pos, from, 1), br, from);
      assert forall j :: 1 <= j <= k + 1 ==> Offset(pos, from, j) == Offset(Offset(pos, from, 1), from, j - 1);
      k + 1
    else 0
  }

  /**
    One bomb of the bomb-collision loop. A bomb that overlapped the player
    before the move is ignored. Otherwise, if corner helping moved the player
    into it, the slide is undone, and the player is pushed back until it no
    longer overlaps the bomb.
   */
  function PassBomb(c: Config, b: Bomb, before: Rect, anchor: Point, helping: bool, pos: Point, from: Heading): (r: Point)
    ensures Intersects(BombRect(c, b), before) ==> r == pos
    ensures !Intersects(BombRect(c, b), before) ==> !Intersects(BombRect(c, b), PlayerRect(c, r))
  {
    var br := BombRect(c, b);
    if Intersects(br, before) then pos
    else
      var p := if helping && Intersects(br, PlayerRect(c, pos)) then anchor else pos;
      Offset(p, from, PushSteps(c, p, br, from))
  }

  /**
    The bomb-collision loop over all bombs in order. Bombs that overlapped the
    player before the move change nothing, and the last bomb in the list, if
    it did not overlap before, does not overlap the player at the end.
   */
  function PassBombs(c: Config, bombs: seq<Bomb>, before: Rect, anchor: Point, helping: bool, pos: Point, from: Heading): (r: Point)
    ensures (forall k :: 0 <= k < |bombs| ==> Intersects(BombRect(c, bombs[k]), before)) ==> r == pos
    ensures |bombs| > 0 && !Intersects(BombRect(c, bombs[|bombs| - 1]), before) ==>
              !Intersects(BombRect(c, bombs[|bombs| - 1]), PlayerRect(c, r))
    decreases |bombs|
  {
    if |bombs| == 0 then pos
    else
      var r := PassBombs(c, bombs[1..], before, anchor, helping, PassBomb(c, bombs[0], before, anchor, helping, pos, from), from);
      assert |bombs| > 1 ==> bombs[|bombs| - 1] == bombs[1..][|bombs[1..]| - 1];
      r
  }

  /**
    The movement part of updatePlayer for a live player: nothing for Still;
    otherwise translate by `ms * speed / 1000` (truncated) along the movement,
    push the corners out of Solid and Soft tiles, apply corner helping, and
    resolve bomb collisions against the position before the move.
   */
  function Move(c: Config, g: Map, bombs: seq<Bomb>, p: Player, ms: int): (r: Point)
    ensures p.keys.movement == Still ==> r == p.pos
  {
    var m := p.keys.movement;
    if m == Still then p.pos
    else
      var disp := JDiv(ms * p.speed, 1000);
      var from := Travel(m).Opposite();
      var res := ResolveSolids(c, g, Offset(p.pos, Travel(m), disp), from);
      var slid := CornerAssist(g, m, res, disp);
      PassBombs(c, bombs, PlayerRect(c, p.pos), res.pos, slid != res.pos, slid, from)
  }

  /** The coordinate of `p` measured in the direction `h`. */
  function Toward(p: Point, h: Heading): int {
    match h
    case North => -p.y
    case South => p.y
    case East => p.x
    case West => -p.x
  }

  /**
    Without bombs on the map, a moving player advances at most `disp` pixels
    along its movement (less by the push-back out of Solid and Soft tiles) and
    moves 0 or `disp` pixels to either side across it, where `disp` is the
    truncated `ms * speed / 1000`.
   */
  lemma MoveWithoutBombs(c: Config, g: Map, p: Player, ms: int)
    requires p.keys.movement != Still
    ensures Toward(Move(c, g, [], p, ms), Travel(p.keys.movement)) - Toward(p.pos, Travel(p.keys.movement))
              <= JDiv(ms * p.speed, 1000)
    ensures var d := Toward(Move(c, g, [], p, ms), Slide(p.keys.movement)) - Toward(p.pos, Slide(p.keys.movement));
              d == 0 || d == JDiv(ms * p.speed, 1000) || d == -JDiv(ms * p.speed, 1000)
  {
    var m := p.keys.movement;
    var disp := JDiv(ms * p.speed, 1000);
    var res := ResolveSolids(c, g, Offset(p.pos, Travel(m), disp), Travel(m).Opposite());
    var slid := CornerAssist(g, m, res, disp);
    assert Move(c, g, [], p, ms) == slid;
    MovedAlongAndAcross(p.pos, m, disp, res.steps, res.pos, slid);
  }

  lemma MovedAlongAndAcross(pos: Point, m: Movement, d: int, n: nat, back: Point, slid: Point)
    requires m != Still
    requires back == Offset(Offset(pos, Travel(m), d), Travel(m).Opposite(), n)
    requires slid == back || slid == Offset(back, Slide(m), d) || slid == Offset(back, Slide(m).Opposite(), d)
    ensures Toward(slid, Travel(m)) - Toward(pos, Travel(m)) <= d
    ensures var e := Toward(slid, Slide(m)) - Toward(pos, Slide(m)); e == 0 || e == d || e == -d
  {
  }
}

/**
  One player's turn within a tick (PhysicsEngine.updatePlayer): invulnerability
  decay, movement, edge-triggered bomb planting, blast and hole damage, and the
  six power-up pickup loops.
 */
module PlayerUpdate {
  import opened Wrappers
  import opened Geometry
  import opened Grid
  import opened Entities
  import opened Collision

  /** A player being updated together with the world it acts on. */
  datatype Turn = Turn(p: Player, w: GameState)

  /**
    Invulnerability runs down by the elapsed time and stops at 0; a value
    that is already 0 or below is left alone.
   */
  function DecayInvulnerability(inv: int, ms: int): (r: int)
    ensures inv <= 0 ==> r == inv
    ensures inv > 0 ==> 0 <= r && inv - ms <= r
    ensures inv > 0 && r > 0 ==> r == inv - ms
  {
    if inv > 0 then (if inv - ms > 0 then inv - ms else 0) else inv
  }

  // ---------------------------------------------------------------- planting

  /** How many bombs on the map bear the name `name`. */
  function BombCount(bombs: seq<Bomb>, name: string): (n: nat)
    ensures n <= |bombs|
    ensures n == 0 <==> forall k :: 0 <= k < |bombs| ==> bombs[k].owner != name
  {
    if |bombs| == 0 then 0
    else BombCount(bombs[..|bombs| - 1], name) + (if bombs[|bombs| - 1].owner == name then 1 else 0)
  }

  /**
    getBombLocation: the pixel position of a new bomb, the tile under the
    player's centre scaled back to pixels plus the offset that centres the
    bomb in the tile. When the bomb is no wider than a tile it lies inside
    that tile, its two side margins differ by at most one pixel, and (for a
    centre at a non-negative coordinate) the bomb's own tile is the centre's.
   */
  function GetBombLocation(c: Config, pos: Point): (r: Point)
    ensures var base := TileOf(pos.x + JDiv(c.playerWidth, 2)) * Tile;
              0 <= c.bombWidth <= Tile ==>
                && base <= r.x && r.x + c.bombWidth <= base + Tile
                && (r.x - base) <= (base + Tile) - (r.x + c.bombWidth) <= (r.x - base) + 1
    ensures var base := TileOf(pos.y + JDiv(c.playerHeight, 2)) * Tile;
              0 <= c.bombHeight <= Tile ==>
                && base <= r.y && r.y + c.bombHeight <= base + Tile
                && (r.y - base) <= (base + Tile) - (r.y + c.bombHeight) <= (r.y - base) + 1
    ensures 0 <= c.bombWidth <= Tile && 0 <= pos.x + JDiv(c.playerWidth, 2) ==>
              TileOf(r.x) == TileOf(pos.x + JDiv(c.playerWidth, 2))
    ensures 0 <= c.bombHeight <= Tile && 0 <= pos.y + JDiv(c.playerHeight, 2) ==>
              TileOf(r.y) == TileOf(pos.y + JDiv(c.playerHeight, 2))
  {
    var xOffset := JDiv(Tile - c.bombWidth, 2);
    var yOffset := JDiv(Tile - c.bombHeight, 2);
    Point(TileOf(pos.x + JDiv(c.playerWidth, 2)) * Tile + xOffset,
          TileOf(pos.y + JDiv(c.playerHeight, 2)) * Tile + yOffset)
  }

  /** The bomb plantBomb creates for a player standing at its current position. */
  function NewBomb(c: Config, p: Player): (b: Bomb)
    ensures b.owner == p.name && b.ownerId == p.id
    ensures b.time == c.defaultBombTime && b.radius == p.bombRange
    ensures 0 <= c.bombWidth <= Tile && 0 <= p.pos.x + JDiv(c.playerWidth, 2) ==>
              TileOf(b.pos.x) == TileOf(p.pos.x + JDiv(c.playerWidth, 2))
    ensures 0 <= c.bombHeight <= Tile && 0 <= p.pos.y + JDiv(c.playerHeight, 2) ==>
              TileOf(b.pos.y) == TileOf(p.pos.y + JDiv(c.playerHeight, 2))
  {
    Bomb(p.name, p.id, GetBombLocation(c, p.pos), c.defaultBombTime, p.bombRange)
  }

  /** The three conditions under which updatePlayer plants a bomb. */
  predicate MayPlant(w: GameState, p: Player)
    requires p.name in w.okToPlaceBomb
  {
    p.keys.bomb && w.okToPlaceBomb[p.name] && BombCount(w.bombs, p.name) < p.maxBombs
  }

  /**
    Edge-triggered planting: a bomb is planted exactly when the bomb key is
    down, the player's latch is armed and the player has fewer bombs on the
    map than allowed; planting disarms the latch, and only a released key
    re-arms it. Nothing but the bomb list, the audio log and this player's
    latch changes.
   */
  function Plant(c: Config, w: GameState, p: Player): (r: GameState)
    requires p.name in w.okToPlaceBomb
    ensures MayPlant(w, p) ==> r.bombs == w.bombs + [NewBomb(c, p)] && r.audio == w.audio + [PlaceBomb]
    ensures !MayPlant(w, p) ==> r.bombs == w.bombs && r.audio == w.audio
    ensures r.okToPlaceBomb.Keys == w.okToPlaceBomb.Keys
    ensures r.okToPlaceBomb[p.name] <==> !p.keys.bomb || (w.okToPlaceBomb[p.name] && !MayPlant(w, p))
    ensures forall n :: n in w.okToPlaceBomb && n != p.name ==> r.okToPlaceBomb[n] == w.okToPlaceBomb[n]
    ensures r == w.(bombs := r.bombs, audio := r.audio, okToPlaceBomb := r.okToPlaceBomb)
  {
    var w1 :=
      if MayPlant(w, p) then
        w.(bombs := w.bombs + [NewBomb(c, p)], audio := w.audio + [PlaceBomb],
           okToPlaceBomb := w.okToPlaceBomb[p.name := false])
      else w;
    if !p.keys.bomb then w1.(okToPlaceBomb := w1.okToPlaceBomb[p.name := true]) else w1
  }

  /** Holding the bomb key down plants at most one bomb: once planted, the next turn with the key still down plants nothing. */
  lemma HeldKeyPlantsOnce(c: Config, w: GameState, p: Player, w': GameState, p': Player)
    requires p.name in w.okToPlaceBomb && MayPlant(w, p)
    requires p'.name == p.name && p'.keys.bomb
    requires w'.okToPlaceBomb == Plant(c, w, p).okToPlaceBomb
    ensures Plant(c, w', p').bombs == w'.bombs
    ensures !Plant(c, w', p').okToPlaceBomb[p.name]
  {
  }

  lemma {:induction false} BombCountAppend(bombs: seq<Bomb>, b: Bomb, name: string)
    ensures BombCount(bombs + [b], name) == BombCount(bombs, name) + (if b.owner == name then 1 else 0)
  {
    assert (bombs + [b])[..|bombs|] == bombs;
  }

  lemma {:induction false} BombCountConcat(a: seq<Bomb>, b: seq<Bomb>, name: string)
    ensures BombCount(a + b, name) == BombCount(a, name) + BombCount(b, name)
    decreases |b|
  {
    if |b| == 0 {
      assert a + b == a;
    } else {
      var b0 := b[..|b| - 1];
      assert a + b == (a + b0) + [b[|b| - 1]];
      assert b == b0 + [b[|b| - 1]];
      BombCountAppend(a + b0, b[|b| - 1], name);
      BombCountAppend(b0, b[|b| - 1], name);
      BombCountConcat(a, b0, name);
    }
  }

  /** How many players bear the name `name`. */
  function Named(ps: seq<Player>, name: string): (n: nat)
    ensures n <= |ps|
    ensures n == 0 <==> forall k :: 0 <= k < |ps| ==> ps[k].name != name
  {
    if |ps| == 0 then 0
    else (if ps[0].name == name then 1 else 0) + Named(ps[1..], name)
  }

  /** No two players share a name. */
  predicate DistinctNames(ps: seq<Player>) {
    forall j, k :: 0 <= j < k < |ps| ==> ps[j].name != ps[k].name
  }

  /** Among players with distinct names, each name is borne exactly once. */
  lemma {:induction false} NamedOnce(ps: seq<Player>, k: nat)
    requires DistinctNames(ps) && k < |ps|
    ensures Named(ps, ps[k].name) == 1
    decreases |ps|
  {
    if k > 0 {
      assert ps[1..][k - 1] == ps[k];
      NamedOnce(ps[1..], k - 1);
    } else {
      assert forall j :: 0 <= j < |ps[1..]| ==> ps[1..][j] == ps[j + 1];
    }
  }

  /** A planted bomb bears the planter's name. */
  lemma PlantOwns(c: Config, w: GameState, p: Player)
    requires p.name in w.okToPlaceBomb
    ensures forall j :: |w.bombs| <= j < |Plant(c, w, p).bombs| ==> Plant(c, w, p).bombs[j].owner == p.name
  {
  }

  /** Planting never takes a player past its bomb allowance. */
  lemma PlantRespectsAllowance(c: Config, w: GameState, p: Player)
    requires p.name in w.okToPlaceBomb
    requires BombCount(w.bombs, p.name) <= p.maxBombs
    ensures BombCount(Plant(c, w, p).bombs, p.name) <= p.maxBombs
  {
    if MayPlant(w, p) {
      BombCountAppend(w.bombs, NewBomb(c, p), p.name);
    }
  }

  // ---------------------------------------------------------------- damage

  /** One life lost: invulnerability restarts and the player dies when its lives reach exactly 0. */
  function Hit(c: Config, p: Player): Player {
    p.(invulnerability := c.invulnerabilityLength, lives := p.lives - 1,
       alive := if p.lives - 1 == 0 then false else p.alive)
  }

  function Touches(c: Config, g: Map, p: Player, b: Block): bool {
    PlayerTouchesBlock(c, g, p.pos, b).Some?
  }

  /**
    The blast check and then the hole check, each against the invulnerability
    as the previous check left it. Each hit costs one life and appends one
    PlayerDeath event; the player dies exactly when its lives reach 0; since
    a blast hit restarts invulnerability before the hole check, two hits in
    one turn need an invulnerability length of 0.
   */
  function Damage(c: Config, t: Turn): (r: Turn)
    ensures |t.w.audio| <= |r.w.audio| <= |t.w.audio| + 2
    ensures r.w == t.w.(audio := t.w.audio + Repeat(PlayerDeath, |r.w.audio| - |t.w.audio|))
    ensures r.p.lives == t.p.lives - (|r.w.audio| - |t.w.audio|)
    ensures r.p.alive <==> t.p.alive && !(1 <= t.p.lives <= |r.w.audio| - |t.w.audio|)
    ensures |r.w.audio| > |t.w.audio| <==>
              t.p.invulnerability == 0 && (Touches(c, t.w.grid, t.p, Blast) || Touches(c, t.w.grid, t.p, Hole))
    ensures |r.w.audio| > |t.w.audio| ==> r.p.invulnerability == c.invulnerabilityLength
    ensures |r.w.audio| == |t.w.audio| ==> r.p == t.p
    ensures c.invulnerabilityLength != 0 ==> |r.w.audio| <= |t.w.audio| + 1
    ensures |r.w.audio| == |t.w.audio| + 2 <==>
              t.p.invulnerability == 0 && c.invulnerabilityLength == 0 &&
              Touches(c, t.w.grid, t.p, Blast) && Touches(c, t.w.grid, t.p, Hole)
    ensures r.p == t.p.(lives := r.p.lives, alive := r.p.alive, invulnerability := r.p.invulnerability)
  {
    var g := t.w.grid;
    var blast := t.p.invulnerability == 0 && Touches(c, g, t.p, Blast);
    var p1 := if blast then Hit(c, t.p) else t.p;
    var hole := p1.invulnerability == 0 && Touches(c, g, t.p, Hole);
    var p2 := if hole then Hit(c, p1) else p1;
    Turn(p2, t.w.(audio := t.w.audio + Repeat(PlayerDeath, (if blast then 1 else 0) + (if hole then 1 else 0))))
  }

  // ---------------------------------------------------------------- power-ups

  /** The effect of picking up one power-up of kind `kind`. */
  function Apply(c: Config, p: Player, kind: Block): (r: Player)
    ensures r == p.(maxBombs := r.maxBombs, bombRange := r.bombRange, speed := r.speed)
    ensures kind == MinusBomb ==> r == p.(maxBombs := if p.maxBombs - 1 > 1 then p.maxBombs - 1 else 1)
    ensures kind == PlusBomb ==> r == p.(maxBombs := p.maxBombs + 1)
    ensures kind == MinusRange ==>
              r == p.(bombRange := if p.bombRange - c.bombRangeChange > c.minimumBombRange
                                   then p.bombRange - c.bombRangeChange else c.minimumBombRange)
    ensures kind == PlusRange ==>
              r == p.(bombRange := if p.bombRange + c.bombRangeChange < c.maximumBombRange
                                   then p.bombRange + c.bombRangeChange else c.maximumBombRange)
    ensures kind == MinusSpeed ==> r.speed == (if p.speed == c.highSpeed then c.defaultSpeed else c.lowSpeed)
    ensures kind == PlusSpeed ==> r.speed == (if p.speed == c.lowSpeed then c.defaultSpeed else c.highSpeed)
    ensures !kind.IsPowerUp() ==> r == p
  {
    match kind
    case MinusBomb => p.(maxBombs := if p.maxBombs - 1 > 1 then p.maxBombs - 1 else 1)
    case PlusBomb => p.(maxBombs := p.maxBombs + 1)
    case MinusRange =>
      p.(bombRange := if p.bombRange - c.bombRangeChange > c.minimumBombRange
                      then p.bombRange - c.bombRangeChange else c.minimumBombRange)
    case PlusRange =>
      p.(bombRange := if p.bombRange + c.bombRangeChange < c.maximumBombRange
                      then p.bombRange + c.bombRangeChange else c.maximumBombRange)
    case MinusSpeed => p.(speed := if p.speed == c.highSpeed then c.defaultSpeed else c.lowSpeed)
    case PlusSpeed => p.(speed := if p.speed == c.lowSpeed then c.defaultSpeed else c.highSpeed)
    case _ => p
  }

  /** `n` pickups of the same kind, one after the other. */
  function ApplyN(c: Config, p: Player, kind: Block, n: nat): Player
    decreases n
  {
    if n == 0 then p else ApplyN(c, Apply(c, p, kind), kind, n - 1)
  }

  /** PlusBomb has no cap: n pickups add exactly n. */
  lemma {:induction false} PlusBombAddsOne(c: Config, p: Player, n: nat)
    ensures ApplyN(c, p, PlusBomb, n).maxBombs == p.maxBombs + n
    decreases n
  {
    if n > 0 {
      PlusBombAddsOne(c, Apply(c, p, PlusBomb), n - 1);
    }
  }

  /** MinusBomb floors at 1: after n >= 1 pickups the allowance is max(1, m - n). */
  lemma {:induction false} MinusBombFloorsAtOne(c: Config, p: Player, n: nat)
    requires n >= 1
    ensures ApplyN(c, p, MinusBomb, n).maxBombs == if p.maxBombs - n > 1 then p.maxBombs - n else 1
    decreases n
  {
    if n > 1 {
      MinusBombFloorsAtOne(c, Apply(c, p, MinusBomb), n - 1);
    }
  }

  /**
    With a non-negative step and MINIMUM <= MAXIMUM, any number of range
    pickups keeps a range that starts inside [MINIMUM, MAXIMUM] inside it.
   */
  lemma {:induction false} RangeStaysClamped(c: Config, p: Player, kind: Block, n: nat)
    requires kind == MinusRange || kind == PlusRange
    requires 0 <= c.bombRangeChange
    requires c.minimumBombRange <= p.bombRange <= c.maximumBombRange
    ensures c.minimumBombRange <= ApplyN(c, p, kind, n).bombRange <= c.maximumBombRange
    decreases n
  {
    if n > 0 {
      RangeStaysClamped(c, Apply(c, p, kind), kind, n - 1);
    }
  }

  /** After at least one speed pickup the speed is one of the three tiers. */
  lemma {:induction false} SpeedInTiers(c: Config, p: Player, kind: Block, n: nat)
    requires kind == MinusSpeed || kind == PlusSpeed
    requires n >= 1
    ensures ApplyN(c, p, kind, n).speed in {c.lowSpeed, c.defaultSpeed, c.highSpeed}
    decreases n
  {
    if n > 1 {
      SpeedInTiers(c, Apply(c, p, kind), kind, n - 1);
    }
  }

  /** Number of corners of the player standing on a `b` tile. */
  function Touching(c: Config, g: Map, pos: Point, b: Block): (n: nat)
    ensures n <= 4
    ensures n == 0 <==> PlayerTouchesBlock(c, g, pos, b).None?
  {
    var cs := Corners(c, pos);
    (if CornerOn(g, cs[0], b) then 1 else 0) + (if CornerOn(g, cs[1], b) then 1 else 0)
    + (if CornerOn(g, cs[2], b) then 1 else 0) + (if CornerOn(g, cs[3], b) then 1 else 0)
  }

  /** Clearing the tile a corner stands on leaves fewer corners on that kind of tile. */
  lemma ClearingLowersTouching(c: Config, g: Map, pos: Point, kind: Block, tile: Point)
    requires kind != Blank
    requires PlayerTouchesBlock(c, g, pos, kind) == Some(tile)
    ensures Touching(c, SetCell(g, tile, Blank), pos, kind) < Touching(c, g, pos, kind)
  {
    var g' := SetCell(g, tile, Blank);
    var cs := Corners(c, pos);
    CornerAfterClear(g, g', tile, cs[0], kind);
    CornerAfterClear(g, g', tile, cs[1], kind);
    CornerAfterClear(g, g', tile, cs[2], kind);
    CornerAfterClear(g, g', tile, cs[3], kind);
    var f := FirstCorner(c, g, pos, kind);
    assert f < 4 && TileAt(cs[f]) == tile && CornerOn(g, cs[f], kind);
  }

  /** One corner: clearing a tile adds no `kind` corner, and removes the one on that tile. */
  lemma CornerAfterClear(g: Map, g': Map, tile: Point, p: Point, kind: Block)
    requires kind != Blank && g' == SetCell(g, tile, Blank)
    ensures CornerOn(g', p, kind) ==> CornerOn(g, p, kind)
    ensures TileAt(p) == tile ==> !CornerOn(g', p, kind)
  {
  }

  /**
    A pickup loop: while a corner stands on a `kind` tile, apply the power-up,
    append one PowerUp event and clear that tile to Blank. When it ends the
    player touches no `kind` tile, the player has had one pickup per event,
    at most four (one per corner), and only `kind` tiles became Blank.
   */
  function Collect(c: Config, t: Turn, kind: Block): (r: Turn)
    requires kind.IsPowerUp()
    decreases Touching(c, t.w.grid, t.p.pos, kind)
    ensures CollectPost(c, t, kind, r)
  {
    match PlayerTouchesBlock(c, t.w.grid, t.p.pos, kind)
    case None => t
    case Some(tile) =>
      ClearingLowersTouching(c, t.w.grid, t.p.pos, kind, tile);
      var t' := PickUp(c, t, kind, tile);
      var r := Collect(c, t', kind);
      CollectStep(c, t, kind, tile, r);
      r
  }

  /** One pass of a pickup loop: the power-up applied, one PowerUp event, the tile cleared. */
  function PickUp(c: Config, t: Turn, kind: Block, tile: Point): Turn {
    Turn(Apply(c, t.p, kind), t.w.(grid := SetCell(t.w.grid, tile, Blank), audio := t.w.audio + [PowerUp]))
  }

  /** What a pickup loop for `kind` guarantees about its result `r`, starting from `t`. */
  ghost predicate CollectPost(c: Config, t: Turn, kind: Block, r: Turn) {
    && CountsPost(c, t, kind, r)
    && PlayerTouchesBlock(c, r.w.grid, r.p.pos, kind).None?
    && r.w == t.w.(grid := r.w.grid, audio := r.w.audio)
    && OnlyCleared(t.w.grid, r.w.grid, kind)
  }

  /** One pickup per PowerUp event, at most one per touching corner, and only the power-up fields change. */
  ghost predicate CountsPost(c: Config, t: Turn, kind: Block, r: Turn) {
    && |t.w.audio| <= |r.w.audio| <= |t.w.audio| + Touching(c, t.w.grid, t.p.pos, kind)
    && r.w.audio == t.w.audio + Repeat(PowerUp, |r.w.audio| - |t.w.audio|)
    && r.p == ApplyN(c, t.p, kind, |r.w.audio| - |t.w.audio|)
    && r.p == t.p.(maxBombs := r.p.maxBombs, bombRange := r.p.bombRange, speed := r.p.speed)
  }

  /** Map `g'` is `g` with some `kind` tiles cleared to Blank. */
  ghost predicate OnlyCleared(g: Map, g': Map, kind: Block) {
    && SameShape(g, g')
    && forall x, y :: InBounds(g, x, y) && g'[x][y] != g[x][y] ==> g[x][y] == kind && g'[x][y] == Blank
  }

  lemma OnlyClearedTransitive(g1: Map, g2: Map, g3: Map, kind: Block)
    requires kind != Blank && OnlyCleared(g1, g2, kind) && OnlyCleared(g2, g3, kind)
    ensures OnlyCleared(g1, g3, kind)
  {
  }

  lemma CollectStep(c: Config, t: Turn, kind: Block, tile: Point, r: Turn)
    requires kind.IsPowerUp()
    requires PlayerTouchesBlock(c, t.w.grid, t.p.pos, kind) == Some(tile)
    requires Touching(c, PickUp(c, t, kind, tile).w.grid, t.p.pos, kind) < Touching(c, t.w.grid, t.p.pos, kind)
    requires CollectPost(c, PickUp(c, t, kind, tile), kind, r)
    ensures CollectPost(c, t, kind, r)
  {
    var t' := PickUp(c, t, kind, tile);
    CountsStep(c, t, kind, t', r);
    assert OnlyCleared(t.w.grid, t'.w.grid, kind);
    OnlyClearedTransitive(t.w.grid, t'.w.grid, r.w.grid, kind);
  }

  /** The counting half of a pickup step: one more event and one more application in front. */
  lemma CountsStep(c: Config, t: Turn, kind: Block, t': Turn, r: Turn)
    requires kind.IsPowerUp()
    requires t'.p == Apply(c, t.p, kind) && t'.w.audio == t.w.audio + [PowerUp]
    requires Touching(c, t'.w.grid, t'.p.pos, kind) < Touching(c, t.w.grid, t.p.pos, kind)
    requires CountsPost(c, t', kind, r)
    ensures CountsPost(c, t, kind, r)
  {
    var n := |r.w.audio| - |t'.w.audio|;
    ApplyFirst(c, t.p, kind, n, t'.p);
    AudioStep(t.w.audio, t'.w.audio, r.w.audio,
              Touching(c, t.w.grid, t.p.pos, kind), Touching(c, t'.w.grid, t'.p.pos, kind));
  }

  /** The event half of a pickup step, with the touching counts as plain numbers. */
  lemma AudioStep(a: seq<AudioEvent>, a': seq<AudioEvent>, b: seq<AudioEvent>, k: nat, k': nat)
    requires a' == a + [PowerUp] && k' < k
    requires |a'| <= |b| <= |a'| + k'
    requires b == a' + Repeat(PowerUp, |b| - |a'|)
    ensures |a| <= |b| <= |a| + k
    ensures b == a + Repeat(PowerUp, |b| - |a|)
  {
    var n := |b| - |a|;
    assert n - 1 == |b| - |a'|;
    assert Repeat(PowerUp, n) == [PowerUp] + Repeat(PowerUp, n - 1);
    PrependOne(a, a', b, PowerUp, Repeat(PowerUp, n - 1), Repeat(PowerUp, n));
  }

  lemma PrependOne<T>(a: seq<T>, a': seq<T>, b: seq<T>, e: T, rest: seq<T>, rest': seq<T>)
    requires a' == a + [e] && b == a' + rest && rest' == [e] + rest
    ensures b == a + rest'
  {
  }

  lemma ApplyFirst(c: Config, p: Player, kind: Block, n: nat, p': Player)
    requires p' == Apply(c, p, kind)
    ensures ApplyN(c, p, kind, n + 1) == ApplyN(c, p', kind, n)
    ensures p' == p.(maxBombs := p'.maxBombs, bombRange := p'.bombRange, speed := p'.speed)
  {
  }

  /** Clearing tiles to Blank cannot make a player touch a kind of tile it did not touch. */
  lemma BlankingKeepsUntouched(c: Config, g: Map, g': Map, pos: Point, kind: Block)
    requires kind != Blank
    requires SameShape(g, g')
    requires forall x, y :: InBounds(g, x, y) && g'[x][y] != g[x][y] ==> g'[x][y] == Blank
    requires PlayerTouchesBlock(c, g, pos, kind).None?
    ensures PlayerTouchesBlock(c, g', pos, kind).None?
  {
    var cs := Corners(c, pos);
    forall k | 0 <= k < 4
      ensures !CornerOn(g', cs[k], kind)
    {
      assert !CornerOn(g, cs[k], kind);
    }
  }

  /** Two runs of the same event appended one after the other are one run. */
  lemma RepeatChain(e: AudioEvent, a: seq<AudioEvent>, b: seq<AudioEvent>, c: seq<AudioEvent>)
    requires |a| <= |b| <= |c|
    requires b == a + Repeat(e, |b| - |a|) && c == b + Repeat(e, |c| - |b|)
    ensures c == a + Repeat(e, |c| - |a|)
  {
  }

  /** The pickup loops for `kinds`, one after the other. */
  function CollectAll(c: Config, t: Turn, kinds: seq<Block>): (r: Turn)
    requires forall k :: 0 <= k < |kinds| ==> kinds[k].IsPowerUp()
    decreases |kinds|
    ensures CollectAllPost(c, t, kinds, r)
  {
    if |kinds| == 0 then t
    else
      var t1 := Collect(c, t, kinds[0]);
      CollectOne(c, t, kinds[0], t1);
      var r := CollectAll(c, t1, kinds[1..]);
      CollectAllStep(c, t, kinds, t1, r);
      r
  }

  /**
    What the pickup loops for `kinds` guarantee: the player touches none of
    those kinds, only power-up tiles were cleared, one PowerUp event per
    pickup, and only the player's allowance, range and speed changed.
   */
  ghost predicate CollectAllPost(c: Config, t: Turn, kinds: seq<Block>, r: Turn) {
    && |t.w.audio| <= |r.w.audio|
    && r.w.audio == t.w.audio + Repeat(PowerUp, |r.w.audio| - |t.w.audio|)
    && (forall k :: 0 <= k < |kinds| ==> PlayerTouchesBlock(c, r.w.grid, r.p.pos, kinds[k]).None?)
    && OnlyPowerUpsCleared(t.w.grid, r.w.grid)
    && r.w == t.w.(grid := r.w.grid, audio := r.w.audio)
    && r.p == t.p.(maxBombs := r.p.maxBombs, bombRange := r.p.bombRange, speed := r.p.speed)
  }

  /** One pickup loop is the pickup loops for a single kind. */
  lemma CollectOne(c: Config, t: Turn, kind: Block, r: Turn)
    requires kind.IsPowerUp() && CollectPost(c, t, kind, r)
    ensures CollectAllPost(c, t, [kind], r)
  {
    assert [kind][0] == kind;
    assert r.p.pos == t.p.pos;
  }

  lemma CollectAllStep(c: Config, t: Turn, kinds: seq<Block>, t1: Turn, r: Turn)
    requires |kinds| > 0 && forall k :: 0 <= k < |kinds| ==> kinds[k].IsPowerUp()
    requires CollectAllPost(c, t, [kinds[0]], t1)
    requires CollectAllPost(c, t1, kinds[1..], r)
    ensures CollectAllPost(c, t, kinds, r)
  {
    assert r.p.pos == t1.p.pos == t.p.pos;
    OnlyPowerUpsClearedTransitive(t.w.grid, t1.w.grid, r.w.grid);
    RepeatChain(PowerUp, t.w.audio, t1.w.audio, r.w.audio);
    assert PlayerTouchesBlock(c, r.w.grid, r.p.pos, kinds[0]).None? by {
      assert PlayerTouchesBlock(c, t1.w.grid, t1.p.pos, [kinds[0]][0]).None?;
      BlankingKeepsUntouched(c, t1.w.grid, r.w.grid, r.p.pos, kinds[0]);
    }
    assert forall k :: 1 <= k < |kinds| ==> kinds[k] == kinds[1..][k - 1];
  }

  /** The kinds in the order the engine collects them. */
  function PickupOrder(): (r: seq<Block>)
    ensures forall k :: 0 <= k < |r| ==> r[k].IsPowerUp()
    ensures forall b: Block :: b.IsPowerUp() ==> b in r
  {
    [MinusBomb, PlusBomb, MinusRange, PlusRange, MinusSpeed, PlusSpeed]
  }

  /**
    The six pickup loops in the engine's order. The player ends up touching
    no power-up of any kind; only power-up tiles were cleared, one PowerUp
    event per pickup; position, lives and invulnerability are untouched.
   */
  function PowerUps(c: Config, t: Turn): (r: Turn)
    ensures |t.w.audio| <= |r.w.audio|
    ensures r.w.audio == t.w.audio + Repeat(PowerUp, |r.w.audio| - |t.w.audio|)
    ensures forall kind: Block :: kind.IsPowerUp() ==> PlayerTouchesBlock(c, r.w.grid, r.p.pos, kind).None?
    ensures OnlyPowerUpsCleared(t.w.grid, r.w.grid)
    ensures r.w == t.w.(grid := r.w.grid, audio := r.w.audio)
    ensures r.p == t.p.(maxBombs := r.p.maxBombs, bombRange := r.p.bombRange, speed := r.p.speed)
  {
    var r := CollectAll(c, t, PickupOrder());
    PickupOrderCovers(c, t, r);
    r
  }

  /** Collecting every kind in PickupOrder leaves the player on no power-up at all. */
  lemma PickupOrderCovers(c: Config, t: Turn, r: Turn)
    requires CollectAllPost(c, t, PickupOrder(), r)
    ensures forall kind: Block :: kind.IsPowerUp() ==> PlayerTouchesBlock(c, r.w.grid, r.p.pos, kind).None?
  {
    forall kind: Block | kind.IsPowerUp()
      ensures PlayerTouchesBlock(c, r.w.grid, r.p.pos, kind).None?
    {
      var order := PickupOrder();
      var k :| 0 <= k < |order| && order[k] == kind;
    }
  }

  // ---------------------------------------------------------------- the whole turn

  /**
    updatePlayer for the player at index `i`. A dead player is left exactly as
    it is. A live one has its invulnerability decayed, moves, may plant, takes
    damage and collects power-ups; the other players, the blast timers and
    the counters are untouched, the map changes only where a power-up is
    cleared, at most one bomb and some events are appended, and no life is
    gained.
   */
  function UpdatePlayer(c: Config, w: GameState, i: int, ms: int): (r: GameState)
    requires 0 <= i < |w.players| && w.players[i].name in w.okToPlaceBomb
    ensures TurnPost(w, i, r)
  {
    var p := w.players[i];
    if !p.alive then w
    else
      var p0 := p.(invulnerability := DecayInvulnerability(p.invulnerability, ms));
      var p1 := p0.(pos := Move(c, w.grid, w.bombs, p0, ms));
      var w2 := Plant(c, w, p1);
      PlantOwns(c, w, p1);
      var t3 := Damage(c, Turn(p1, w2));
      var t4 := PowerUps(c, t3);
      var r := t4.w.(players := t4.w.players[i := t4.p]);
      LiveTurn(w, i, p1, w2, t3, t4, r);
      r
  }

  /** TurnPost for a live player, from what each stage of the turn guarantees. */
  lemma LiveTurn(w: GameState, i: nat, p1: Player, w2: GameState, t3: Turn, t4: Turn, r: GameState)
    requires i < |w.players| && w.players[i].alive
    requires p1 == w.players[i].(invulnerability := p1.invulnerability, pos := p1.pos)
    requires w2 == w.(bombs := w2.bombs, audio := w2.audio, okToPlaceBomb := w2.okToPlaceBomb)
    requires w.bombs <= w2.bombs && |w2.bombs| <= |w.bombs| + 1 && w.audio <= w2.audio
    requires forall j :: |w.bombs| <= j < |w2.bombs| ==> w2.bombs[j].owner == w.players[i].name
    requires w2.okToPlaceBomb.Keys == w.okToPlaceBomb.Keys
    requires |w2.audio| <= |t3.w.audio| <= |w2.audio| + 2
    requires t3.w == w2.(audio := w2.audio + Repeat(PlayerDeath, |t3.w.audio| - |w2.audio|))
    requires t3.p.lives == p1.lives - (|t3.w.audio| - |w2.audio|)
    requires t3.p.alive ==> p1.alive
    requires t3.p == p1.(lives := t3.p.lives, alive := t3.p.alive, invulnerability := t3.p.invulnerability)
    requires |t3.w.audio| <= |t4.w.audio|
    requires t4.w.audio == t3.w.audio + Repeat(PowerUp, |t4.w.audio| - |t3.w.audio|)
    requires OnlyPowerUpsCleared(t3.w.grid, t4.w.grid)
    requires t4.w == t3.w.(grid := t4.w.grid, audio := t4.w.audio)
    requires t4.p == t3.p.(maxBombs := t4.p.maxBombs, bombRange := t4.p.bombRange, speed := t4.p.speed)
    requires r == t4.w.(players := t4.w.players[i := t4.p])
    ensures TurnPost(w, i, r)
  {
    assert w2.audio <= t3.w.audio <= t4.w.audio;
  }

  /** What updatePlayer for the player at index `i` guarantees about its result `r`. */
  ghost predicate TurnPost(w: GameState, i: nat, r: GameState)
    requires i < |w.players|
  {
    && (!w.players[i].alive ==> r == w)
    && |r.players| == |w.players|
    && (forall j :: 0 <= j < |w.players| && j != i ==> r.players[j] == w.players[j])
    && r.players[i].name == w.players[i].name && r.players[i].id == w.players[i].id
    && w.players[i].lives - 2 <= r.players[i].lives <= w.players[i].lives
    && (r.players[i].alive ==> w.players[i].alive)
    && r.blasts == w.blasts && r.gameCounter == w.gameCounter && r.holeCounter == w.holeCounter
    && OnlyPowerUpsCleared(w.grid, r.grid)
    && w.audio <= r.audio
    && w.bombs <= r.bombs && |r.bombs| <= |w.bombs| + 1
    && (forall j :: |w.bombs| <= j < |r.bombs| ==> r.bombs[j].owner == w.players[i].name)
    && r.okToPlaceBomb.Keys == w.okToPlaceBomb.Keys
  }

  /**
    The player loop of a tick, from index `i` on. Players before `i` and dead
    players are untouched; nobody gains a life or comes back to life; the
    new bombs bear the names of players from `i` on, no name on more of them
    than players from `i` on bear it (so each player of a list with distinct
    names plants at most one bomb); the map changes only where power-ups are
    cleared.
   */
  function UpdatePlayersFrom(c: Config, w: GameState, i: nat, ms: int): (r: GameState)
    requires i <= |w.players| && LatchesCover(w.players, w.okToPlaceBomb)
    decreases |w.players| - i
    ensures PlayersFromPost(w, i, r)
  {
    if i == |w.players| then
      assert OnlyPowerUpsCleared(w.grid, w.grid);
      w
    else
      var w1 := UpdatePlayer(c, w, i, ms);
      var r := UpdatePlayersFrom(c, w1, i + 1, ms);
      PlayersFromStep(w, i, w1, r);
      r
  }

  /** What the player loop from index `i` guarantees about its result `r`. */
  ghost predicate PlayersFromPost(w: GameState, i: nat, r: GameState) {
    && i <= |w.players|
    && |r.players| == |w.players|
    && (forall k :: 0 <= k < i && k < |w.players| ==> r.players[k] == w.players[k])
    && (forall k :: 0 <= k < |w.players| && !w.players[k].alive ==> r.players[k] == w.players[k])
    && (forall k :: 0 <= k < |w.players| ==>
          && r.players[k].name == w.players[k].name
          && r.players[k].lives <= w.players[k].lives
          && (r.players[k].alive ==> w.players[k].alive))
    && r.blasts == w.blasts && r.gameCounter == w.gameCounter && r.holeCounter == w.holeCounter
    && OnlyPowerUpsCleared(w.grid, r.grid)
    && w.audio <= r.audio
    && w.bombs <= r.bombs && |r.bombs| <= |w.bombs| + (|w.players| - i)
    && (forall name :: BombCount(r.bombs[|w.bombs|..], name) <= Named(w.players[i..], name))
    && r.okToPlaceBomb.Keys == w.okToPlaceBomb.Keys
  }

  lemma PlayersFromStep(w: GameState, i: nat, w1: GameState, r: GameState)
    requires i < |w.players| && TurnPost(w, i, w1)
    requires PlayersFromPost(w1, i + 1, r)
    ensures PlayersFromPost(w, i, r)
  {
    OnlyPowerUpsClearedTransitive(w.grid, w1.grid, r.grid);
    assert r.players[i] == w1.players[i];
    forall name
      ensures BombCount(r.bombs[|w.bombs|..], name) <= Named(w.players[i..], name)
    {
      PlantsStep(w, i, w1, r, name);
    }
  }

  /** The per-name bound on new bombs, one player further back. */
  lemma PlantsStep(w: GameState, i: nat, w1: GameState, r: GameState, name: string)
    requires i < |w.players| && TurnPost(w, i, w1)
    requires PlayersFromPost(w1, i + 1, r)
    ensures BombCount(r.bombs[|w.bombs|..], name) <= Named(w.players[i..], name)
  {
    var own := w1.bombs[|w.bombs|..];
    var rest := r.bombs[|w1.bombs|..];
    assert r.bombs[|w.bombs|..] == own + rest;
    BombCountConcat(own, rest, name);
    assert w1.players[i + 1..] == w.players[i + 1..];
    assert w.players[i..][1..] == w.players[i + 1..];
    if name != w.players[i].name {
      assert BombCount(own, name) == 0;
    }
  }

  /** The player loop of update: every player in list order. */
  function UpdatePlayers(c: Config, w: GameState, ms: int): (r: GameState)
    requires LatchesCover(w.players, w.okToPlaceBomb)
    ensures |r.players| == |w.players|
    ensures forall k :: 0 <= k < |w.players| && !w.players[k].alive ==> r.players[k] == w.players[k]
    ensures forall k :: 0 <= k < |w.players| ==>
              && r.players[k].name == w.players[k].name
              && r.players[k].lives <= w.players[k].lives
              && (r.players[k].alive ==> w.players[k].alive)
    ensures r.blasts == w.blasts && r.gameCounter == w.gameCounter && r.holeCounter == w.holeCounter
    ensures OnlyPowerUpsCleared(w.grid, r.grid)
    ensures w.audio <= r.audio
    ensures w.bombs <= r.bombs && |r.bombs| <= |w.bombs| + |w.players|
    ensures forall name :: BombCount(r.bombs[|w.bombs|..], name) <= Named(w.players, name)
    ensures LatchesCover(r.players, r.okToPlaceBomb)
  {
    var r := UpdatePlayersFrom(c, w, 0, ms);
    assert w.players[0..] == w.players;
    r
  }

  /**
    When no two players share a name, the player loop plants at most one
    bomb per player, and every new bomb belongs to one of the players.
   */
  lemma UpdatePlayersPlantsOnce(c: Config, w: GameState, ms: int)
    requires LatchesCover(w.players, w.okToPlaceBomb) && DistinctNames(w.players)
    ensures var r := UpdatePlayers(c, w, ms);
            forall k :: 0 <= k < |w.players| ==> BombCount(r.bombs[|w.bombs|..], w.players[k].name) <= 1
    ensures var r := UpdatePlayers(c, w, ms);
            forall j :: |w.bombs| <= j < |r.bombs| ==> exists k :: 0 <= k < |w.players| && r.bombs[j].owner == w.players[k].name
  {
    var r := UpdatePlayers(c, w, ms);
    forall k | 0 <= k < |w.players|
      ensures BombCount(r.bombs[|w.bombs|..], w.players[k].name) <= 1
    {
      NamedOnce(w.players, k);
    }
    forall j | |w.bombs| <= j < |r.bombs|
      ensures exists k :: 0 <= k < |w.players| && r.bombs[j].owner == w.players[k].name
    {
      var name := r.bombs[j].owner;
      assert r.bombs[|w.bombs|..][j - |w.bombs|].owner == name;
      assert BombCount(r.bombs[|w.bombs|..], name) != 0;
    }
  }
}

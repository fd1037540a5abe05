/**
  Bomb fuses (PhysicsEngine.updateBomb and the bomb loop of update): every
  fuse runs down by the tick's milliseconds; a bomb whose fuse is used up
  explodes from its tile with its radius, adds one Explosion event and is
  removed once all bombs have been aged.
 */
module Bombs {
  import opened Geometry
  import opened Grid
  import opened Entities
  import opened Blast

  /** The tile under a bomb's pixel position (`pos / 64`). */
  function BombTile(b: Bomb): Point {
    Point(TileOf(b.pos.x), TileOf(b.pos.y))
  }

  /** Every fuse run down by `ms` milliseconds (decreaseBombTimer). */
  function AgeBombs(bs: seq<Bomb>, ms: int): (r: seq<Bomb>)
    ensures |r| == |bs|
    ensures forall k :: 0 <= k < |bs| ==> r[k] == bs[k].(time := bs[k].time - ms)
  {
    seq(|bs|, k requires 0 <= k < |bs| => bs[k].(time := bs[k].time - ms))
  }

  /** The bombs whose fuse is used up, in list order (the toBeDeleted list). */
  function Fired(bs: seq<Bomb>): (r: seq<Bomb>)
    ensures forall b :: b in r <==> b in bs && b.time <= 0
  {
    if |bs| == 0 then []
    else (if bs[0].time <= 0 then [bs[0]] else []) + Fired(bs[1..])
  }

  /** The bombs still ticking, in list order; with the fired ones they account for every bomb. */
  function Ticking(bs: seq<Bomb>): (r: seq<Bomb>)
    ensures forall b :: b in r <==> b in bs && b.time > 0
    ensures |r| + |Fired(bs)| == |bs|
  {
    if |bs| == 0 then []
    else (if bs[0].time > 0 then [bs[0]] else []) + Ticking(bs[1..])
  }

  /** Putting one more bomb in front of either part of a split keeps it a split. */
  lemma SplitCons(h: Bomb, t: seq<Bomb>, r1: seq<Bomb>, r2: seq<Bomb>, keep: bool)
    requires multiset(r1) + multiset(r2) == multiset(t)
    ensures multiset((if keep then [h] else []) + r1) + multiset((if !keep then [h] else []) + r2) == multiset([h] + t)
  {
  }

  /** Every bomb of the list is either fired or still ticking, counted with multiplicity. */
  lemma {:induction false} FiredTickingSplit(bs: seq<Bomb>)
    ensures multiset(Ticking(bs)) + multiset(Fired(bs)) == multiset(bs)
  {
    if |bs| > 0 {
      var rest := bs[1..];
      FiredTickingSplit(rest);
      SplitCons(bs[0], rest, Ticking(rest), Fired(rest), bs[0].time > 0);
      assert bs == [bs[0]] + rest;
      assert Ticking(bs) == (if bs[0].time > 0 then [bs[0]] else []) + Ticking(rest);
      assert Fired(bs) == (if !(bs[0].time > 0) then [bs[0]] else []) + Fired(rest);
    }
  }

  /**
    `r` is `bs` with some bombs left out and the rest kept in their order:
    `f` maps each position of `r` to a position of `bs`, strictly increasing.
   */
  ghost predicate Embeds(r: seq<Bomb>, bs: seq<Bomb>, f: seq<nat>) {
    && |f| == |r|
    && (forall k :: 0 <= k < |f| ==> f[k] < |bs| && r[k] == bs[f[k]])
    && (forall k, l :: 0 <= k < l < |f| ==> f[k] < f[l])
  }

  /** Keeping or dropping the head of `bs` extends an embedding of its tail. */
  lemma EmbedsCons(r: seq<Bomb>, bs: seq<Bomb>, rest: seq<Bomb>, f: seq<nat>, keep: bool)
    requires |bs| > 0 && Embeds(rest, bs[1..], f)
    requires r == (if keep then [bs[0]] else []) + rest
    ensures exists g :: Embeds(r, bs, g)
  {
    assert Embeds(r, bs, (if keep then [0] else []) + seq(|f|, k requires 0 <= k < |f| => f[k] + 1));
  }

  /** The fired bombs keep the order they had in the bomb list. */
  lemma {:induction false} FiredInOrder(bs: seq<Bomb>)
    ensures exists f :: Embeds(Fired(bs), bs, f)
  {
    if |bs| == 0 {
      assert Embeds(Fired(bs), bs, []);
    } else {
      FiredInOrder(bs[1..]);
      var rest := Fired(bs[1..]);
      var f :| Embeds(rest, bs[1..], f);
      var keep := bs[0].time <= 0;
      assert Fired(bs) == (if keep then [bs[0]] else []) + rest;
      EmbedsCons(Fired(bs), bs, rest, f, keep);
    }
  }

  /** Ticking on a non-empty list: the head is kept when its fuse is positive. */
  lemma TickingCons(bs: seq<Bomb>)
    requires |bs| > 0
    ensures Ticking(bs) == (if bs[0].time > 0 then [bs[0]] else []) + Ticking(bs[1..])
  {
  }

  /** The bombs still ticking keep the order they had in the bomb list. */
  lemma {:induction false} TickingInOrder(bs: seq<Bomb>)
    ensures exists f :: Embeds(Ticking(bs), bs, f)
  {
    if |bs| == 0 {
      assert Embeds(Ticking(bs), bs, []);
    } else {
      TickingInOrder(bs[1..]);
      var rest := Ticking(bs[1..]);
      var f :| Embeds(rest, bs[1..], f);
      var keep := bs[0].time > 0;
      TickingCons(bs);
      EmbedsCons(Ticking(bs), bs, rest, f, keep);
    }
  }

  /**
    The explosions of the fired bombs, in order: each one starts a blast in
    all directions from the bomb's tile with the bomb's radius. Together they
    change tiles only into Blast and never touch a Solid tile.
   */
  function Detonate(c: Config, a: Arena, fired: seq<Bomb>): (r: Arena)
    ensures SameShape(a.grid, r.grid)
    ensures forall i, j :: InBounds(a.grid, i, j) && r.grid[i][j] != a.grid[i][j] ==> r.grid[i][j] == Blast
    ensures forall i, j :: InBounds(a.grid, i, j) && a.grid[i][j] == Solid ==> r.grid[i][j] == Solid
    ensures |a.blasts| <= |r.blasts|
    ensures forall k :: 0 <= k < |a.blasts| ==> r.blasts[k].location == a.blasts[k].location
    decreases |fired|
  {
    if |fired| == 0 then a
    else
      var b := fired[0];
      var a1 := AddBlast(c, a, BombTile(b).x, BombTile(b).y, b.radius, 0);
      AddBlastEffect(c, a, BombTile(b).x, BombTile(b).y, b.radius, 0);
      Detonate(c, a1, fired[1..])
  }

  lemma {:induction false} DetonateKeepsTimerInvariant(c: Config, a: Arena, fired: seq<Bomb>)
    requires TimerInvariant(a.grid, a.blasts)
    ensures TimerInvariant(Detonate(c, a, fired).grid, Detonate(c, a, fired).blasts)
    decreases |fired|
  {
    if |fired| > 0 {
      var b := fired[0];
      AddBlastKeepsTimerInvariant(c, a, BombTile(b).x, BombTile(b).y, b.radius);
      DetonateKeepsTimerInvariant(c, AddBlast(c, a, BombTile(b).x, BombTile(b).y, b.radius, 0), fired[1..]);
    }
  }

  /**
    The bomb phase of a tick: every fuse runs down by `ms`; the bombs whose
    fuse is used up explode, each adding exactly one Explosion event, and are
    removed; the others stay with their shorter fuse. Nothing but the map, the
    timers, the bombs and the audio log changes.
   */
  function UpdateBombs(c: Config, w: GameState, ms: int): (r: GameState)
    ensures forall b :: b in r.bombs <==> b in AgeBombs(w.bombs, ms) && b.time > 0
    ensures |r.bombs| <= |w.bombs|
    ensures r.audio == w.audio + Repeat(Explosion, |w.bombs| - |r.bombs|)
    ensures r.players == w.players && r.okToPlaceBomb == w.okToPlaceBomb
    ensures r.gameCounter == w.gameCounter && r.holeCounter == w.holeCounter
    ensures SameShape(w.grid, r.grid)
    ensures forall i, j :: InBounds(w.grid, i, j) && r.grid[i][j] != w.grid[i][j] ==> r.grid[i][j] == Blast
    ensures forall i, j :: InBounds(w.grid, i, j) && w.grid[i][j] == Solid ==> r.grid[i][j] == Solid
    ensures multiset(r.bombs) + multiset(Fired(AgeBombs(w.bombs, ms))) == multiset(AgeBombs(w.bombs, ms))
    ensures exists f :: Embeds(r.bombs, AgeBombs(w.bombs, ms), f)
  {
    var aged := AgeBombs(w.bombs, ms);
    var fired := Fired(aged);
    TickingInOrder(aged);
    FiredTickingSplit(aged);
    var a := Detonate(c, Arena(w.grid, w.blasts), fired);
    w.(grid := a.grid, blasts := a.blasts, bombs := Ticking(aged),
       audio := w.audio + Repeat(Explosion, |fired|))
  }

  /**
    Every fired bomb blasts its own tile and each tile within reach along its
    four arms, measured on the map before any bomb of this tick went off:
    earlier explosions only turn tiles into Blast, which opens paths and
    never closes one.
   */
  lemma {:induction false} DetonateReach(c: Config, a: Arena, fired: seq<Bomb>, n: nat, direction: int, k: nat)
    requires n < |fired| && 1 <= direction <= 4
    requires Reachable(a.grid, BombTile(fired[n]).x, BombTile(fired[n]).y, fired[n].radius, direction, k)
    ensures var p := Along(BombTile(fired[n]).x, BombTile(fired[n]).y, direction, k);
            Detonate(c, a, fired).grid[p.x][p.y] == Blast
    decreases |fired|
  {
    var t := BombTile(fired[n]);
    var b := fired[0];
    var a1 := AddBlast(c, a, BombTile(b).x, BombTile(b).y, b.radius, 0);
    assert Detonate(c, a, fired) == Detonate(c, a1, fired[1..]);
    if n == 0 {
      CrossReach(c, a, t.x, t.y, b.radius, direction, k);
    } else {
      AddBlastEffect(c, a, BombTile(b).x, BombTile(b).y, b.radius, 0);
      ReachableWiden(a.grid, a1.grid, t.x, t.y, fired[n].radius, direction, k);
      assert fired[1..][n - 1] == fired[n];
      DetonateReach(c, a1, fired[1..], n - 1, direction, k);
    }
  }

  /** Every fired bomb whose own tile it can blast leaves a timer on that tile. */
  lemma {:induction false} DetonateTimer(c: Config, a: Arena, fired: seq<Bomb>, n: nat)
    requires n < |fired|
    requires InBounds(a.grid, BombTile(fired[n]).x, BombTile(fired[n]).y)
    requires fired[n].radius != 0 && a.grid[BombTile(fired[n]).x][BombTile(fired[n]).y] != Solid
    ensures exists j :: 0 <= j < |Detonate(c, a, fired).blasts| &&
                        Detonate(c, a, fired).blasts[j].location == BombTile(fired[n])
    decreases |fired|
  {
    var t := BombTile(fired[n]);
    var b := fired[0];
    var a1 := AddBlast(c, a, BombTile(b).x, BombTile(b).y, b.radius, 0);
    var r := Detonate(c, a1, fired[1..]);
    assert Detonate(c, a, fired) == r;
    if n == 0 {
      CentreTimer(c, a, t.x, t.y, b.radius);
      var j :| 0 <= j < |a1.blasts| && a1.blasts[j].location == t;
      assert r.blasts[j].location == t;
    } else {
      AddBlastEffect(c, a, BombTile(b).x, BombTile(b).y, b.radius, 0);
      assert fired[1..][n - 1] == fired[n];
      DetonateTimer(c, a1, fired[1..], n - 1);
    }
  }

  /**
    A bomb whose fuse runs out this tick (time <= ms) turns its own tile and
    every tile within reach along its arms into Blast, and leaves a timer on
    its own tile.
   */
  lemma UpdateBombsBlasts(c: Config, w: GameState, ms: int, b: Bomb, direction: int, k: nat)
    requires b in w.bombs && b.time <= ms && 1 <= direction <= 4
    requires Reachable(w.grid, BombTile(b).x, BombTile(b).y, b.radius, direction, k)
    ensures var p := Along(BombTile(b).x, BombTile(b).y, direction, k);
            UpdateBombs(c, w, ms).grid[p.x][p.y] == Blast
    ensures k == 0 ==> exists j :: 0 <= j < |UpdateBombs(c, w, ms).blasts| &&
                                   UpdateBombs(c, w, ms).blasts[j].location == BombTile(b)
  {
    var aged := AgeBombs(w.bombs, ms);
    var fired := Fired(aged);
    var i :| 0 <= i < |w.bombs| && w.bombs[i] == b;
    assert aged[i] in fired;
    var n :| 0 <= n < |fired| && fired[n] == aged[i];
    DetonateReach(c, Arena(w.grid, w.blasts), fired, n, direction, k);
    if k == 0 {
      assert Along(BombTile(b).x, BombTile(b).y, direction, 0) == BombTile(b);
      DetonateTimer(c, Arena(w.grid, w.blasts), fired, n);
    }
  }

  /** A single fired bomb is one explosion in all directions from its tile. */
  lemma DetonateOne(c: Config, a: Arena, b: Bomb)
    ensures Detonate(c, a, [b]) == AddBlast(c, a, BombTile(b).x, BombTile(b).y, b.radius, 0)
  {
    assert [b][1..] == [];
  }

  /**
    A single fired bomb changes no tile but its own and the tiles within
    reach along its four arms.
   */
  lemma BombContainment(c: Config, a: Arena, b: Bomb, i: int, j: int)
    requires InBounds(a.grid, i, j) && Detonate(c, a, [b]).grid[i][j] != a.grid[i][j]
    ensures exists d, k: nat :: 1 <= d <= 4 && Point(i, j) == Along(BombTile(b).x, BombTile(b).y, d, k) &&
                                Reachable(a.grid, BombTile(b).x, BombTile(b).y, b.radius, d, k)
  {
    DetonateOne(c, a, b);
    CrossContainment(c, a, BombTile(b).x, BombTile(b).y, b.radius, i, j);
  }

  /**
    Exactly the reachable tiles: a tile that is not yet Blast is Blast after a
    single bomb goes off if and only if it is the bomb's tile or within reach
    along one of its arms.
   */
  lemma BombBlasts(c: Config, a: Arena, b: Bomb, i: int, j: int)
    requires InBounds(a.grid, i, j) && a.grid[i][j] != Blast
    ensures Detonate(c, a, [b]).grid[i][j] == Blast <==>
            exists d, k: nat :: 1 <= d <= 4 && Point(i, j) == Along(BombTile(b).x, BombTile(b).y, d, k) &&
                                Reachable(a.grid, BombTile(b).x, BombTile(b).y, b.radius, d, k)
  {
    var t := BombTile(b);
    if Detonate(c, a, [b]).grid[i][j] == Blast {
      BombContainment(c, a, b, i, j);
    }
    if exists d, k: nat :: 1 <= d <= 4 && Point(i, j) == Along(t.x, t.y, d, k) && Reachable(a.grid, t.x, t.y, b.radius, d, k) {
      var d: int, k: nat :| 1 <= d <= 4 && Point(i, j) == Along(t.x, t.y, d, k) && Reachable(a.grid, t.x, t.y, b.radius, d, k);
      DetonateReach(c, a, [b], 0, d, k);
    }
  }

  /**
    A single bomb's counterpart of SoftOrSolidShields: on each arm, a tile
    that is Soft, Solid or off the map shields every tile behind it.
   */
  lemma BombShields(c: Config, a: Arena, b: Bomb, direction: int, m: nat, k: nat)
    requires 1 <= direction <= 4 && m < k
    requires InBounds(a.grid, Along(BombTile(b).x, BombTile(b).y, direction, k).x, Along(BombTile(b).x, BombTile(b).y, direction, k).y)
    ensures var p := Along(BombTile(b).x, BombTile(b).y, direction, k);
            !Passable(a.grid, Along(BombTile(b).x, BombTile(b).y, direction, m)) ==>
              Detonate(c, a, [b]).grid[p.x][p.y] == a.grid[p.x][p.y]
  {
    DetonateOne(c, a, b);
    CrossShields(c, a, BombTile(b).x, BombTile(b).y, b.radius, direction, m, k);
  }

  /** The bomb phase keeps the blast-timer invariant (at most one timer per tile, each on Blast). */
  lemma UpdateBombsKeepsTimerInvariant(c: Config, w: GameState, ms: int)
    requires TimerInvariant(w.grid, w.blasts)
    ensures TimerInvariant(UpdateBombs(c, w, ms).grid, UpdateBombs(c, w, ms).blasts)
  {
    DetonateKeepsTimerInvariant(c, Arena(w.grid, w.blasts), Fired(AgeBombs(w.bombs, ms)));
  }
}

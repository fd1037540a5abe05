/**
  The map clean-up at the start of a tick (PhysicsEngine.updateMap): every
  blast timer runs down, expired ones write their block back to the map and
  are dropped.
 */
module MapTimers {
  import opened Geometry
  import opened Grid
  import opened Entities

  /** Every timer run down by `ms` milliseconds (BlastTimer.decreaseTimer). */
  function Age(ts: seq<BlastTimer>, ms: int): (r: seq<BlastTimer>)
    ensures |r| == |ts|
    ensures forall k :: 0 <= k < |ts| ==> r[k] == ts[k].(timer := ts[k].timer - ms)
  {
    seq(|ts|, k requires 0 <= k < |ts| => ts[k].(timer := ts[k].timer - ms))
  }

  /**
    Writes the block of every expired timer back to its tile, in list order.
    Tiles without an expired timer keep their block; with distinct locations,
    each expired timer's tile ends up holding that timer's block.
   */
  function RestoreExpired(g: Map, ts: seq<BlastTimer>): (r: Map)
    ensures SameShape(g, r)
    ensures forall i, j ::
              (InBounds(g, i, j) && forall k :: 0 <= k < |ts| && ts[k].IsDone() ==> ts[k].location != Point(i, j)) ==>
              r[i][j] == g[i][j]
    ensures DistinctLocations(ts) ==>
              forall k :: 0 <= k < |ts| && ts[k].IsDone() && InBounds(g, ts[k].location.x, ts[k].location.y) ==>
                r[ts[k].location.x][ts[k].location.y] == ts[k].restore
    decreases |ts|
  {
    if |ts| == 0 then g
    else
      var g1 := if ts[0].IsDone() then SetCell(g, ts[0].location, ts[0].restore) else g;
      var r := RestoreExpired(g1, ts[1..]);
      assert forall k :: 1 <= k < |ts| ==> ts[k] == ts[1..][k - 1];
      r
  }

  /** BlastTimer list `removeIf(isDone)`: the timers still running, in order. */
  function RemoveDone(ts: seq<BlastTimer>): (r: seq<BlastTimer>)
    ensures forall t :: t in r <==> t in ts && !t.IsDone()
    ensures DistinctLocations(ts) ==> DistinctLocations(r)
  {
    if |ts| == 0 then []
    else if ts[0].IsDone() then RemoveDone(ts[1..])
    else
      var rest := RemoveDone(ts[1..]);
      assert DistinctLocations(ts) ==> forall k :: 0 <= k < |rest| ==> rest[k].location != ts[0].location by {
        if DistinctLocations(ts) {
          forall k | 0 <= k < |rest| ensures rest[k].location != ts[0].location {
            assert rest[k] in ts[1..];
            var m :| 0 <= m < |ts[1..]| && ts[1..][m] == rest[k];
            assert ts[m + 1] == rest[k];
          }
        }
      }
      [ts[0]] + rest
  }

  /**
    updateMap: each timer is run down by `ms`; those now done restore their
    tile and are removed, the rest stay with their new timer values.
   */
  function UpdateMap(a: Arena, ms: int): (r: Arena)
    ensures SameShape(a.grid, r.grid)
    ensures forall t :: t in r.blasts <==> t in Age(a.blasts, ms) && !t.IsDone()
  {
    var aged := Age(a.blasts, ms);
    Arena(RestoreExpired(a.grid, aged), RemoveDone(aged))
  }

  /**
    The map side of updateMap: a tile with no timer expiring this tick keeps
    its block, and, with the blast-timer invariant, each expiring timer's tile
    gets that timer's block back.
   */
  lemma UpdateMapRestores(a: Arena, ms: int)
    ensures forall i, j ::
              (InBounds(a.grid, i, j) &&
               forall k :: 0 <= k < |a.blasts| && a.blasts[k].timer - ms <= 0 ==> a.blasts[k].location != Point(i, j)) ==>
              UpdateMap(a, ms).grid[i][j] == a.grid[i][j]
    ensures TimerInvariant(a.grid, a.blasts) ==>
              forall k :: 0 <= k < |a.blasts| && a.blasts[k].timer - ms <= 0 ==>
                UpdateMap(a, ms).grid[a.blasts[k].location.x][a.blasts[k].location.y] == a.blasts[k].restore
  {
    var aged := Age(a.blasts, ms);
    assert UpdateMap(a, ms).grid == RestoreExpired(a.grid, aged);
    assert forall k :: 0 <= k < |a.blasts| ==> aged[k].location == a.blasts[k].location && aged[k].restore == a.blasts[k].restore;
    assert forall k :: 0 <= k < |a.blasts| ==> (aged[k].IsDone() <==> a.blasts[k].timer - ms <= 0);
    assert DistinctLocations(a.blasts) ==> DistinctLocations(aged);
  }

  /** Reveal uniqueness survives the clean-up: the timers left still sit alone on Blast tiles. */
  lemma UpdateMapKeepsTimerInvariant(a: Arena, ms: int)
    requires TimerInvariant(a.grid, a.blasts)
    ensures TimerInvariant(UpdateMap(a, ms).grid, UpdateMap(a, ms).blasts)
  {
    var aged := Age(a.blasts, ms);
    var r := UpdateMap(a, ms);
    assert DistinctLocations(aged);
    assert r.blasts == RemoveDone(aged);
    assert r.grid == RestoreExpired(a.grid, aged);
    forall k | 0 <= k < |r.blasts|
      ensures InBounds(r.grid, r.blasts[k].location.x, r.blasts[k].location.y)
      ensures r.blasts[k].restore != Solid
      ensures r.grid[r.blasts[k].location.x][r.blasts[k].location.y] == Blast
    {
      var t := r.blasts[k];
      assert t in aged;
      var m :| 0 <= m < |aged| && aged[m] == t;
      assert forall n :: 0 <= n < |aged| && n != m ==> aged[n].location != t.location;
      assert !t.IsDone();
      assert a.grid[t.location.x][t.location.y] == Blast;
    }
  }
}

# BombBlitz physics tick and client session bookkeeping in Dafny

This project models two parts of the BombBlitz game.

- **The physics engine.** `PhysicsEngine.update` advances the game by a number of
  milliseconds. Each call runs four stages in order:
  1. It ages the blast timers and restores tiles whose timer has expired.
  2. It ages the bombs and detonates the expired ones. A blast spreads recursively in four
     directions. It stops at Soft blocks and is blocked by Solid blocks.
  3. It runs each player's turn:
     - movement, with push-back out of walls;
     - corner helping;
     - push-back out of bombs;
     - edge-triggered bomb planting;
     - blast and hole damage, with invulnerability;
     - power-up pickup.
  4. It advances the game and hole counters. It opens a hole in a random eligible tile when
     the current phase's timer expires.
- **The server's per-client record.** `ServerClientInfo` holds:
  - the 16-bit outgoing packet sequence counter;
  - the 100-slot ring of sent packets;
  - the 100-slot ring of received sequence numbers, used to detect duplicates within a
    25-second window;
  - the lobby and room flags.

Everything is a pure function over immutable records:

- `GameState` holds the grid, players, bombs, blast timers, audio events, the planting
  latches and the counters.
- `Arena` is the grid together with the blast timers.
- `Turn` is one player together with the world it acts on.
- `Client` is one client's session record.

The map is `seq<seq<Block>>`, indexed `[x][y]` like the engine's `gridMap`. Pixel
coordinates become tiles by Java's truncating division by 64 (`Geometry.JDiv`,
`Geometry.TileOf`).

Modules, by file:

| file | module | what it holds |
|---|---|---|
| `geometry.dfy` | `Geometry` | points, headings and rectangles |
| `grid.dfy` | `Grid` | blocks and map access |
| `entities.dfy` | `Entities` | configuration, players, bombs, timers and the game state |
| `blast.dfy` | `Blast` | `addBlast` and `updateBlastList` |
| `bombs.dfy` | `Bombs` | `updateBomb` and the bomb removal in `update` |
| `map_timers.dfy` | `MapTimers` | `updateMap` |
| `collision.dfy` | `Collision` | corners, `revertPosition`, corner helping and bomb push-back |
| `player.dfy` | `PlayerUpdate` | `updatePlayer` |
| `holes.dfy` | `Holes` | `okToPutHole` and hole spawning |
| `engine.dfy` | `Engine` | `update(int)` and `update()` |
| `client_info.dfy` | `ClientInfo` | `ServerClientInfo` |

A player can lose at most one life per tick whenever `INVULNERABILITY_LENGTH` is non-zero.
In `PhysicsEngine.java`, the blast hit resets invulnerability (line 298) before the hole check
runs (line 306), and the hole check requires invulnerability 0. `PlayerUpdate.Damage` states both the one-life bound
and the exact condition under which two lives are lost.

## Model

| member | source | states |
|---|---|---|
| Grid.PixelBlockAt | src/bomber/physics/PhysicsEngine.java:375-382 | A pixel has a block exactly when the tile found by truncating each coordinate divided by 64 lies on the map, and then it is that tile's block. |
| Grid.PixelInTile | src/bomber/physics/PhysicsEngine.java:375-382 | The 64 pixels 64i to 64i+63 of a non-negative tile index i all read tile i. Because the division truncates, the pixels -63 to -1 read tile 0 as well instead of lying off the map. |
| Grid.SetCell | src/bomber/physics/PhysicsEngine.java:535-539 | Writing a tile changes that tile only and keeps the map's shape. |
| Blast.FirstAt | src/bomber/physics/PhysicsEngine.java:552-553 | Finds the first timer at a position, and no earlier timer lies there. The source takes `findAny()` on a sequential stream, which yields the first match; under `DistinctLocations` it is the only match. |
| Blast.UpdateBlastList | src/bomber/physics/PhysicsEngine.java:550-558 | Without a timer at the position, exactly one new timer is appended, with the explosion length and the given restore block. With one, the list keeps its length, every location and every restore block. Timers elsewhere are untouched, and a timer at the position is reset to the explosion length. |
| Blast.UpdateBlastListKeepsDistinct | src/bomber/physics/PhysicsEngine.java:550-558 | If no two timers share a tile before, none do after. Afterwards a timer sits at the position. |
| Blast.TileStep | src/bomber/physics/PhysicsEngine.java:502-533 | A tile is skipped exactly when it is off the map, the radius is 0 or it is Solid. Propagation stops exactly at an in-range Soft tile: that tile becomes Blast and gains a new timer restoring Blank. Any other tile keeps its block for now and the blast passes on. A Hole gains a new timer restoring Hole. Any other tile goes through `updateBlastList` with Blank. |
| Blast.Line | src/bomber/physics/PhysicsEngine.java:500-541 | A directional blast keeps the map's shape. Off the map, at radius 0 or on Solid, it changes nothing. |
| Blast.AddBlast | src/bomber/physics/PhysicsEngine.java:500-541 | A blast keeps the map's shape. Off the map, at radius 0 or on a Solid tile, it changes nothing. What it does reach is stated by `Blast.CrossReach` and `Blast.LineReach`. |
| Blast.AddBlastEffect | src/bomber/physics/PhysicsEngine.java:500-541 | The relation to the blast's path (its centre and arms for direction 0, one ray otherwise). Only tiles on the path become Blast, and only Blast is written. Solid tiles stay Solid. Existing timers keep their tile and restore block, and timers off the path are untouched. New timers lie on the map, on the path, and restore Blank or Hole. |
| Blast.AddBlastKeepsTimerInvariant | src/bomber/physics/PhysicsEngine.java:500-558 | A detonation keeps the timer invariant: every timer lies on the map on a Blast tile, never restores Solid, and no two share a tile. |
| Blast.LineGrid | src/bomber/physics/PhysicsEngine.java:500-541 | The grid a directional blast leaves equals `Ray`, the same recursion over the grid alone with the timers left out. A ray blasts tiles while they are Passable and within the radius. The first Soft tile is blasted and ends the ray; a Solid tile ends it untouched. `RayContainment` and `RayReach` state which tiles that is. |
| Blast.RayContainment | src/bomber/physics/PhysicsEngine.java:511-533 | A tile the ray changes k steps out has k below the radius (for positive radii), and every tile before it was Passable (neither Soft nor Solid nor off the map). |
| Blast.RayReach | src/bomber/physics/PhysicsEngine.java:511-533 | The converse of `RayContainment`. A tile k steps out becomes Blast if k is below the radius (any k for a negative radius), the tile is on the map and not Solid, and every tile before it is Passable. |
| Blast.LineReach | src/bomber/physics/PhysicsEngine.java:500-541 | A directional blast turns every tile within that reach into Blast. |
| Blast.CrossReach | src/bomber/physics/PhysicsEngine.java:500-541 | An explosion (direction 0) turns its own tile into Blast, and every tile within reach along each of its four arms. Each arm starts next to the centre with the radius one lower. |
| Blast.Cross | src/bomber/physics/PhysicsEngine.java:518-523 | The four arms keep the map's shape. What they change is stated by `Blast.CrossEffect`, `Blast.CrossReach` and `Blast.CrossContainment`. |
| Blast.CrossEffect | src/bomber/physics/PhysicsEngine.java:518-523 | The four arms change only tiles on the centre's row or column, and only into Blast. They never touch a Solid tile. Existing timers keep their tile and restore block, and timers off that row and column are untouched. New timers lie on the map on that row or column and restore Blank or Hole. |
| Blast.CentreTimer | src/bomber/physics/PhysicsEngine.java:507-517 | An explosion on an on-map, non-Solid tile with a non-zero radius leaves a timer on that tile. |
| Blast.LineContainment | src/bomber/physics/PhysicsEngine.java:511-533 | The converse of `LineReach`: a tile a directional blast changes k steps out is within reach. That is, k is below the radius (for positive radii), the tile is on the map and not Solid, and every tile before it is Passable. |
| Blast.CrossContainment | src/bomber/physics/PhysicsEngine.java:500-541 | The converse of `CrossReach`: a tile an explosion (direction 0) changes is its own tile or lies k steps along one of the four arms, within reach as measured on the map before the explosion. |
| Blast.CrossShields | src/bomber/physics/PhysicsEngine.java:500-541 | On each arm of an explosion, a tile that is Soft, Solid or off the map shields every tile behind it: those keep their block. |
| Blast.SoftOrSolidShields | src/bomber/physics/PhysicsEngine.java:511-533 | A Soft or Solid tile on a blast line shields every tile behind it: those keep their block. |
| Bombs.AgeBombs | src/bomber/physics/PhysicsEngine.java:481 | Every fuse drops by the elapsed time. Nothing else changes, and the list keeps its order and length. |
| Bombs.Fired | src/bomber/physics/PhysicsEngine.java:482-489 | The bombs that go off are exactly those whose fuse is at or below 0. |
| Bombs.FiredInOrder | src/bomber/physics/PhysicsEngine.java:45-47 | The fired bombs appear in the order the bomb loop meets them: each is matched to a position of the bomb list, and the positions strictly increase. |
| Bombs.Ticking | src/bomber/physics/PhysicsEngine.java:45-48 | The bombs that remain are exactly those with a positive fuse, and they number the bombs not fired. |
| Bombs.TickingInOrder | src/bomber/physics/PhysicsEngine.java:45-48 | Removing the fired bombs keeps the others in their order: each remaining bomb is matched to a position of the bomb list, and the positions strictly increase. |
| Bombs.FiredTickingSplit | src/bomber/physics/PhysicsEngine.java:45-48 | The remaining and the fired bombs together are the whole list, counted with multiplicity: no bomb is lost or duplicated. |
| Bombs.Detonate | src/bomber/physics/PhysicsEngine.java:482-489 | Detonating the fired bombs keeps the map's shape, writes only Blast, and never touches a Solid tile. Existing timers keep their tiles, and timers are only added. |
| Bombs.DetonateReach | src/bomber/physics/PhysicsEngine.java:482-489 | Every fired bomb blasts its own tile, found by truncating division by 64. It also blasts each tile within reach along its four arms, with reach measured on the map before any bomb went off. Earlier explosions only open paths. |
| Bombs.DetonateTimer | src/bomber/physics/PhysicsEngine.java:482-489 | Every fired bomb on an on-map, non-Solid tile with a non-zero radius leaves a timer on its tile. |
| Bombs.UpdateBombs | src/bomber/physics/PhysicsEngine.java:45-48 | The bomb stage. The remaining bombs are exactly the aged bombs with a positive fuse. One Explosion event is appended per removed bomb. Players, latches and counters are unchanged. The map keeps its shape, gains only Blast tiles and keeps every Solid tile. The remaining bombs and the fired ones make up the aged list with multiplicity, and the remaining ones keep their order. |
| Bombs.UpdateBombsBlasts | src/bomber/physics/PhysicsEngine.java:45-48 | A bomb whose fuse runs out this tick (time at most the elapsed milliseconds) turns its tile into Blast and leaves a timer there. It also turns every tile within reach along its arms into Blast. |
| Bombs.BombContainment | src/bomber/physics/PhysicsEngine.java:482-489 | A single fired bomb changes no tile but its own and the tiles within reach along its four arms. |
| Bombs.BombBlasts | src/bomber/physics/PhysicsEngine.java:482-489 | A tile that is not yet Blast becomes Blast when a single bomb goes off if and only if it is the bomb's tile or within reach along one of its arms. |
| Bombs.BombShields | src/bomber/physics/PhysicsEngine.java:482-489 | For a single fired bomb, a Soft, Solid or off-map tile on an arm shields every tile behind it: those keep their block. For example, a radius-3 bomb with a Soft tile right of it never changes the tile beyond. |
| Bombs.UpdateBombsKeepsTimerInvariant | src/bomber/physics/PhysicsEngine.java:45-48 | The bomb stage keeps the timer invariant. |
| MapTimers.Age | src/bomber/physics/PhysicsEngine.java:584-586 | Every blast timer drops by the elapsed time, and nothing else about it changes. |
| MapTimers.RestoreExpired | src/bomber/physics/PhysicsEngine.java:584-589 | Tiles without an expired timer keep their block. If no two timers share a tile, each expired timer's tile holds that timer's restore block. |
| MapTimers.RemoveDone | src/bomber/physics/PhysicsEngine.java:590 | The timers kept are exactly the unexpired ones, and distinct locations stay distinct. |
| MapTimers.UpdateMap | src/bomber/physics/PhysicsEngine.java:579-591 | The map keeps its shape. The timers left are exactly the aged ones that are not done. |
| MapTimers.UpdateMapRestores | src/bomber/physics/PhysicsEngine.java:579-591 | A tile with no timer that expires this tick keeps its block. Under the timer invariant, the tile of every timer that expires this tick gets that timer's restore block back. |
| MapTimers.UpdateMapKeepsTimerInvariant | src/bomber/physics/PhysicsEngine.java:579-591 | Restoring and removing expired timers keeps the timer invariant. |
| Collision.FirstCorner | src/bomber/physics/PhysicsEngine.java:372-384 | Finds the first of the corners, in the order top-left, bottom-right, bottom-left, top-right, that lies on the block. No earlier corner does. |
| Collision.PlayerTouchesBlock | src/bomber/physics/PhysicsEngine.java:372-384 | Returns none exactly when no corner lies on the block. Otherwise it returns an on-map tile holding the block: the tile of the first corner in the engine's order. |
| Collision.RevertSteps | src/bomber/physics/PhysicsEngine.java:432-441 | revertPosition as a step count: after that many one-pixel steps back, the corner is off Solid and Soft tiles, and at every earlier step it was on one. The loop terminates. |
| Collision.PushOut | src/bomber/physics/PhysicsEngine.java:432-441 | One revertPosition call leaves its corner clear of Solid and Soft tiles. |
| Collision.ResolveSolids | src/bomber/physics/PhysicsEngine.java:203-212 | After the four push-backs, each corner it checks is clear of Solid and Soft tiles. The player has moved only backwards along the axis of travel. |
| Collision.PointIsClear | src/bomber/physics/PhysicsEngine.java:463-467 | A pixel is clear exactly when its tile, found by truncating division by 64, is off the map or holds neither Solid nor Soft. |
| Collision.NeighboursAreClear | src/bomber/physics/PhysicsEngine.java:449-454 | Clear neighbours imply a clear pixel. For a pixel strictly inside a tile, the neighbours add nothing: they are clear exactly when the pixel is. |
| Collision.CornerAssist | src/bomber/physics/PhysicsEngine.java:216-250 | Corner helping moves the player by exactly plus or minus the displacement on the perpendicular axis, or not at all. It moves exactly when one leading corner's neighbourhood is clear and the other's is not, toward the clear side, as `neighboursAreClear` and `pointIsClear` define clear. |
| Collision.PushSteps | src/bomber/physics/PhysicsEngine.java:258-272 | The bomb push-back loop ends with the player not overlapping the bomb, and every earlier step still overlapped it. |
| Collision.PassBomb | src/bomber/physics/PhysicsEngine.java:253-274 | A bomb that overlapped the player before the move is ignored. Any other bomb does not overlap the player when its loop exits. |
| Collision.PassBombs | src/bomber/physics/PhysicsEngine.java:253-274 | If every bomb overlapped before the move, the position is unchanged. The last bomb, if it did not overlap before, does not overlap at the end. |
| Collision.Move | src/bomber/physics/PhysicsEngine.java:174-274 | A player with no movement key does not move. |
| Collision.MoveWithoutBombs | src/bomber/physics/PhysicsEngine.java:174-250 | With no bombs in the way, a move advances at most `ms*speed/1000` along the direction of travel. It shifts by exactly 0, plus or minus that displacement on the perpendicular axis. |
| Holes.OkToPutHole | src/bomber/physics/PhysicsEngine.java:111-132 | A tile is eligible exactly when it is not Hole, Soft, Solid or Blast and, outside the aggressive phase, no player rectangle overlaps it. Both directions are stated. |
| Holes.Candidates | src/bomber/physics/PhysicsEngine.java:66-69 | The scanned list contains exactly the on-map tiles that are eligible. |
| Holes.SpawnHole | src/bomber/physics/PhysicsEngine.java:59-78 | Below the phase's timer, only the hole counter advances. At or above it, the counter resets to 0 and at most one eligible tile becomes a Hole. If an eligible tile exists, one does. |
| Holes.HoleStep | src/bomber/physics/PhysicsEngine.java:55-100 | The game counter grows by the elapsed time. Before the first phase, nothing else changes. In the first phase, holes avoid players; in the second, they may open under them. A changed tile was eligible and is now a Hole. In each phase, below the phase's timer only the hole counter advances and the map is unchanged. At the timer, the counter resets to 0, and a tile that was not a Hole becomes one whenever an eligible tile exists. |
| Holes.HoleSpareBlocking | src/bomber/physics/PhysicsEngine.java:111-115 | Hole spawning never alters a Hole, Soft, Solid or Blast tile, and writes only Hole. |
| PlayerUpdate.DecayInvulnerability | src/bomber/physics/PhysicsEngine.java:161-163 | Positive invulnerability drops by the elapsed time, floored at 0. Invulnerability at or below 0 is left alone. |
| PlayerUpdate.BombCount | src/bomber/physics/PhysicsEngine.java:281-284 | Counts the bombs bearing a name: never more than the list holds, and 0 exactly when none bears it. |
| PlayerUpdate.GetBombLocation | src/bomber/physics/PhysicsEngine.java:417-423 | A bomb no wider than a tile lies inside the tile under the player's centre. Its two margins differ by at most one pixel. For non-negative centres, its own tile is that tile. |
| PlayerUpdate.NewBomb | src/bomber/physics/PhysicsEngine.java:402-409 | The planted bomb bears the player's name and id, the default fuse and the player's range. For non-negative centres it lies on the tile under the player's centre. |
| PlayerUpdate.Plant | src/bomber/physics/PhysicsEngine.java:279-292 | A bomb (the `plantBomb` bomb, lines 402-409) and one PlaceBomb event are appended exactly when the key is down, the latch is armed and the player has fewer bombs than allowed. Otherwise the bombs and events are unchanged. The latch ends armed exactly when the key is up, or when it was armed and nothing was planted. Other latches and the rest of the state are unchanged. |
| PlayerUpdate.HeldKeyPlantsOnce | src/bomber/physics/PhysicsEngine.java:279-292 | Holding the bomb key down plants at most one bomb: the turn after a planting, with the key still down, plants nothing. |
| PlayerUpdate.PlantRespectsAllowance | src/bomber/physics/PhysicsEngine.java:279-292 | Planting never takes a player past its bomb allowance. |
| PlayerUpdate.Damage | src/bomber/physics/PhysicsEngine.java:296-313 | A hit happens exactly when invulnerability is 0 and a corner touches Blast or Hole. Each hit costs one life and appends one PlayerDeath event. The player dies exactly when its lives reach 0. After a hit, invulnerability restarts. Two lives are lost exactly when invulnerability is 0, the invulnerability length is 0, and the player touches both Blast and Hole. So the count (0, 1 or 2) is fixed in every case, and with a non-zero length at most one life is lost. Nothing else changes. |
| PlayerUpdate.Apply | src/bomber/physics/PhysicsEngine.java:317-360 | One pickup. MINUS_BOMB lowers the allowance, floored at 1; PLUS_BOMB raises it by one. MINUS_RANGE sets the range to the larger of the minimum range and the range minus the range change. PLUS_RANGE sets it to the smaller of the maximum range and the range plus the change. Speed steps between the low, default and high tiers. Only that one attribute changes. |
| PlayerUpdate.PlusBombAddsOne | src/bomber/physics/PhysicsEngine.java:323-328 | n PLUS_BOMB pickups raise the allowance by exactly n, without a cap. |
| PlayerUpdate.MinusBombFloorsAtOne | src/bomber/physics/PhysicsEngine.java:317-322 | n MINUS_BOMB pickups lower the allowance by n, but never below 1. |
| PlayerUpdate.RangeStaysClamped | src/bomber/physics/PhysicsEngine.java:329-342 | Range pickups keep the range within the minimum and maximum. |
| PlayerUpdate.SpeedInTiers | src/bomber/physics/PhysicsEngine.java:343-360 | After any speed pickup, the speed is one of the three tiers. |
| PlayerUpdate.Touching | src/bomber/physics/PhysicsEngine.java:317-360 | The pickup loops' measure: at most 4, and 0 exactly when no corner touches the power-up. |
| PlayerUpdate.ClearingLowersTouching | src/bomber/physics/PhysicsEngine.java:317-360 | Blanking the touched tile strictly lowers the measure, so every pickup loop terminates. |
| PlayerUpdate.Collect | src/bomber/physics/PhysicsEngine.java:317-360 | One pickup loop. When it ends, no corner touches that power-up. It appends one PowerUp event per pickup, at most one per touching corner, and the player equals the start with that many pickups applied. Only tiles holding that power-up change, and they become Blank. |
| PlayerUpdate.PowerUps | src/bomber/physics/PhysicsEngine.java:317-360 | After all six loops, no corner touches any power-up. Only power-up tiles are cleared. Only PowerUp events are appended. Only the bomb allowance, range and speed change. |
| PlayerUpdate.UpdatePlayer | src/bomber/physics/PhysicsEngine.java:151-362 | A dead player leaves the world unchanged (line 155). For a live one: other players, blast timers and counters are unchanged; name and id are kept; at most two lives are lost and none gained; the dead stay dead; the map changes only where power-ups are cleared; events are appended; at most one bomb is appended, and it bears the player's name. |
| PlayerUpdate.UpdatePlayersFrom | src/bomber/physics/PhysicsEngine.java:51-52 | The player loop from index i. Earlier and dead players are untouched. Nobody gains a life or revives. No name is borne by more new bombs than by players from index i on. |
| PlayerUpdate.UpdatePlayers | src/bomber/physics/PhysicsEngine.java:51-52 | The whole player stage. Dead players are untouched. Nobody gains a life or revives. No name is borne by more new bombs than by players, so no more bombs are appended than there are players. Only power-ups are cleared from the map. Every player keeps a latch. |
| PlayerUpdate.UpdatePlayersPlantsOnce | src/bomber/physics/PhysicsEngine.java:51-52 | When no two players share a name, each player's name is on at most one new bomb. Every new bomb bears a player's name. |
| Engine.CleanUp | src/bomber/physics/PhysicsEngine.java:41-42 | The clean-up stage changes only the map and the timers. The map keeps its shape. The timers left are exactly the aged ones that are not done. A tile with no timer expiring this tick keeps its block. |
| Engine.Tick | src/bomber/physics/PhysicsEngine.java:39-101 | update(ms) grows the game counter by ms. It keeps the map's shape. It only appends to the audio log. It keeps the player count. It leaves a state from which the next tick can start. |
| Engine.TickDefault | src/bomber/physics/PhysicsEngine.java:137-140 | update() is a tick of 1000 ms. |
| Engine.TickKeepsPlayers | src/bomber/physics/PhysicsEngine.java:39-101 | Across a tick, dead players are untouched, and nobody changes name, gains a life or comes back to life. |
| Engine.TickKeepsTimerInvariant | src/bomber/physics/PhysicsEngine.java:39-101 | A tick keeps the timer invariant: each timer sits on a Blast tile, restores a non-Solid block, and no two share a tile. |
| Engine.TickKeepsSolid | src/bomber/physics/PhysicsEngine.java:39-101 | Under the timer invariant, a tick neither destroys nor creates a Solid tile. |
| ClientInfo.Wrap16 | src/bomber/networking/ServerClientInfo.java:131-133 | A value narrowed to a Java `short` lies in range and is congruent to the original modulo 65536. |
| ClientInfo.NewClient | src/bomber/networking/ServerClientInfo.java:64-74 | A new client is in the lobby and not in a room, with sequence counter 0. Both rings have 100 empty slots. |
| ClientInfo.NextPacketSequence | src/bomber/networking/ServerClientInfo.java:131-133 | Returns the current sequence number and increments it, wrapping from 32767 to -32768. Nothing else changes. |
| ClientInfo.TakeSequencesCount | src/bomber/networking/ServerClientInfo.java:131-133 | The k-th of n consecutive calls returns the starting value plus k, wrapped to 16 bits. |
| ClientInfo.SequencesDistinct | src/bomber/networking/ServerClientInfo.java:131-133 | No sequence number repeats within 65536 consecutive calls. |
| ClientInfo.InsertPacket | src/bomber/networking/ServerClientInfo.java:183-199 | Writes the slot at the index, reset to 0 once it is past 99, and only that slot. The index becomes that slot plus one and stays in [0, 100]. The ring keeps 100 slots. |
| ClientInfo.WrittenOf | src/bomber/networking/ServerClientInfo.java:183-199 | After up to 100 insertions in a row, the k-th packet sits k slots round the ring from the first slot used, so none of them is lost. |
| ClientInfo.KeptOf | src/bomber/networking/ServerClientInfo.java:183-199 | After up to 100 insertions in a row, the slots the run does not reach keep their packets. |
| ClientInfo.InsertAllIndex | src/bomber/networking/ServerClientInfo.java:183-199 | After one or more insertions, the index points just past the slot of the last one. |
| ClientInfo.FindSeen | src/bomber/networking/ServerClientInfo.java:210-211 | Finds the first recorded entry with the sequence number, as the for-each loop meets it. |
| ClientInfo.IsSequenceDuplicate | src/bomber/networking/ServerClientInfo.java:209-230 | Returns true exactly when the first matching entry is younger than 25000 ms, and then changes nothing. For an older match, that entry's time is refreshed and no slot is used. For an unseen number, the next ring slot (wrapping at 99) gets it and the index advances. |
| ClientInfo.RepeatIsDuplicate | src/bomber/networking/ServerClientInfo.java:209-230 | A sequence number accepted at one time is reported as a duplicate at any later time within 25000 ms. |
| ClientInfo.SetInLobby | src/bomber/networking/ServerClientInfo.java:274-277 | Sets the lobby flag and makes the room flag its negation. Nothing else changes. |
| ClientInfo.SetInRoom | src/bomber/networking/ServerClientInfo.java:285-288 | Sets the room flag and makes the lobby flag its negation. Nothing else changes. |
| ClientInfo.LobbyRoomExclusive | src/bomber/networking/ServerClientInfo.java:25-26 | From construction, after any sequence of setInLobby and setInRoom calls, the client is in exactly one of lobby and room. |
| ClientInfo.IsInGame | src/bomber/networking/ServerClientInfo.java:255-266 | Never in a game while in the lobby or without a room. Otherwise in a game exactly when the room is. |

## Left out

- Concurrency: `synchronized` and the input and AI threads writing key states are not modelled. A player's keys are a per-tick snapshot of a movement and a bomb key.
- Random choice: the random hole index is the parameter `pick`. The chosen tile is `pick` modulo the number of eligible tiles.
- Floating-point speed: the player's `double` speed is an integer. The displacement is `ms * speed / 1000` with Java's truncating division.
- AWT: `Rectangle` and `Point` are integer records. `intersects` is strict overlap of rectangles with positive size.
- The clock: the current time in milliseconds is the parameter `now`. `ClientInfo.IsSequenceDuplicate` reads it once, where the source calls `System.currentTimeMillis()` up to three times in one call (ServerClientInfo.java lines 212, 215 and 225). The connection time stamp and round-trip delay are not modelled.
- Packet contents: a packet is an abstract payload with a length. `PacketHistoryEntry` is a sequence number with a packet, and `reset` overwrites it just as a fresh entry would.
- `Map` is not part of this model. `getPixelBlockAt` is the tile at the pixel divided by 64 with truncation, and nothing off the map. `setGridBlockAt` off the map does nothing.
- `BlastTimer` is not part of this model. `new BlastTimer(pos)` restores Blank and `new BlastTimer(pos, reveal)` restores `reveal`. Every new timer starts at the explosion length. `decreaseTimer(ms)` subtracts ms, and `isDone` means the timer is at or below 0.
- `Constants` is not part of this model. The tile size is fixed at 64 pixels as `Geometry.Tile`, because the engine writes `/ 64` and `* 64` literally. The other game constants are fields of `Config`.
- `ServerRoom` is not part of this model. The client's room is absent, or present with a flag saying whether its game is running.
- Java `int` overflow: counters, coordinates and timers are unbounded integers. Only the `short` sequence counter wraps, because the sequence numbers depend on it.
- Map shape: hole spawning scans `gridMap[0].length` rows in every column, so it assumes a rectangular map; a tick requires one.
- Sound: the MOVEMENT sound event is commented out in the source and is not produced.
- Getters and setters other than the lobby and room flags, `setReadyToPlay`, `setRoom` and `toString` are plain field access and are not modelled.
- Lives at or below 0: a player at 0 lives or below whose `alive` flag is still set keeps losing lives, as in the source. The model does not assume lives start positive.
- PlayerUpdate.UpdatePlayersFrom: bounds new bombs per name, not per player. Bombs and latches are keyed by name, so two players with one name can plant twice in one tick. `PlayerUpdate.UpdatePlayersPlantsOnce` gives the per-player bound when names are distinct.
- PlayerUpdate.UpdatePlayer: bounds the lives lost per turn by two. The exact count is stated by `PlayerUpdate.Damage`.
- Collision.Move: states only that a still player does not move. The bounds on the move are stated by `Collision.MoveWithoutBombs` (no bombs) and `Collision.PassBomb` (each bomb).
- Collision.PassBombs: states non-overlap only for the last bomb of the list. Pushing back from a later bomb can move the player into an earlier one, so the source does not promise non-overlap with every bomb at the end.
- Blast.Cross: its own contract states only the shape. What the arms change is stated by the lemmas `Blast.CrossEffect`, `Blast.CrossReach` and `Blast.CrossContainment`, so that proofs that mention `Cross` do not carry per-tile facts they do not need.
- Engine.Tick: does not restate the player guarantees. They are stated by `Engine.TickKeepsPlayers`, and the timer and Solid invariants by `Engine.TickKeepsTimerInvariant` and `Engine.TickKeepsSolid`.

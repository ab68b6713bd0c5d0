# Authoritative game server core, in Dafny

This project models the backend of a small real-time multiplayer game and proves properties of the model. The backend has four parts:

- the Player entity (input buffering, movement, experience);
- the Enemy entity (velocity integration with wall reflection, damage);
- the chunked tile-collision index built from a Tiled tilemap;
- the server's world. Its dictionaries of players, enemies, pending inputs and the two socket mappings are updated by the `init`/`playerInput`/`disconnect` handlers and by one `gameLoop` tick. A tick runs `processInputs`, `updateGameState`, `getGameState` and `spawnEnemies`, in that order.

Modules:

| module | file | models |
|---|---|---|
| `Common` | common.dfy | vectors, the 800 x 600 world box, the clamp every mover applies, the four held-key displacements, string truthiness |
| `PlayerEntity` | player.dfy | `backend/src/entities/Player.ts`: class `Player` plus the pure functions its methods are proved against |
| `EnemyEntity` | enemy.dfy | `backend/src/entities/Enemy.ts`: class `Enemy` plus `MoveBody` and `Damage` |
| `MapLoading` | map_loader.dfy | `backend/src/MapLoader.ts`: the collidable-id set, the point query, and class `MapLoader` |
| `GameRules` | game_rules.dfy | `backend/src/server.ts` as functions of the world's values: pending inputs, attack, movement, deletion, snapshot, top-up, a whole tick |
| `Server` | server.dfy | `backend/src/server.ts` as class `World`, whose methods update the dictionaries in place. Each is proved equal to its `GameRules` function |

Modelling choices:

- JavaScript numbers used as coordinates, velocities and `deltaTime` are `real`. Level, exp and health are `int`.
- A JavaScript dictionary whose `for ... in` order affects the outcome is a sequence in insertion order, keyed by a field. The order decides which of two equally close enemies is hit and in which order attacks resolve. This applies to `enemies` (keyed by `id`) and `latestInputs` (keyed by `playerId`). `players` is iterated only to copy it into the snapshot dictionary, where order does not matter. The two socket mappings are never iterated. These three are maps.
- `undefined` is `None`. A missing boolean flag is `false`.
- A player id or socket id is truthy when it is not the empty string.
- A tilemap property value is truthy under JavaScript's rules (`TruthyValue`).
- The attack radius test compares squared distances: `d² < 2500` instead of `sqrt(d²) < 50`. This keeps both the in-range test and the "strictly closer" order.
- Input the model cannot compute is passed in as a parameter:
  - the tilemap the loader would read from disk;
  - the record the database would return (`stored`);
  - the fresh ids, random positions and velocities of new enemies (`Spawn`);
  - the tick's `deltaTime`.
- Notifications are returned instead of emitted: the `levelUp` events of a tick (`LevelUp`), the `playerLeft` id of a disconnect, and the `init` reply.

Where the code behaves differently from what its names, comments and callers suggest, the model follows the code:

- `gainExp` levels up at most once per call (`GainExpLeavesExcess`).
- `takeDamage` reports a kill on every call once health is at or below 0, not only once (`TenthHitKills`).
- The server's own level-up resets exp to 0 instead of subtracting the threshold (`RewardDropsRemainder`).
- The server copies `direction` and `action` from the input even when they are absent (`Steer`).
- The server's `playerInput` overwrites the pending input, with no attack preservation (`Store`).
- Movement never consults the tile map.
- There is no enemy AI: enemies only drift and bounce.
- A killed enemy is deleted in the same tick, before the snapshot, so it never appears dead in a snapshot.
- The chunk window is `[x - width, x) × [y - height, y)`, as the query writes it, not the tilemap format's `[x, x + width)` (`ChunkCornerNotCovered`).
- A reconnect under the same player id leaves the old socket's mapping in place (`Server.World.Init`), so the socket mapping is not one-to-one.

## Model

| member | source | states |
|---|---|---|
| Common.Clamp | backend/src/entities/Player.ts:87-88 | the result lies in [0, hi]; a value already inside is kept; below 0 gives 0, above hi gives hi |
| Common.Displace | backend/src/entities/Player.ts:73-76 | each held key shifts its axis by exactly ±speed; left and right (or up and down) held together cancel |
| Common.ClampToWorld | backend/src/server.ts:235-236 | the result is inside the world box; a point inside is unchanged; each coordinate past a wall lands on that wall |
| PlayerEntity.Merge | backend/src/entities/Player.ts:62-66 | a pending attack survives the new input; with no pending attack the buffer becomes exactly the new input; apart from the action, it is always the new input |
| PlayerEntity.AttackIsSticky | backend/src/entities/Player.ts:62-66 | after any number of inputs the buffer attacks iff it started attacking or some input attacked, and otherwise equals the last input |
| PlayerEntity.Processed | backend/src/entities/Player.ts:70-88 | the position is the displaced position clamped into the world axis by axis: it equals the displaced position whenever that is inside, and each axis past a wall lands on that wall; direction and action change only to truthy input values |
| PlayerEntity.ProcessInputTwice | backend/src/entities/Player.ts:91 | processing again on the emptied buffer changes nothing |
| PlayerEntity.ProcessEmptyInWorld | backend/src/entities/Player.ts:70-91 | an empty buffer leaves an in-world pose unchanged |
| PlayerEntity.Gain | backend/src/entities/Player.ts:94-102 | reports a level-up iff exp + amount reaches level*100; then the level rises by exactly 1 and the threshold is subtracted, otherwise the level is unchanged |
| PlayerEntity.GainExpKeepsExpNonNegative | backend/src/entities/Player.ts:94-102 | non-negative exp and gain keep exp non-negative |
| PlayerEntity.GainExpBelowNextThreshold | backend/src/entities/Player.ts:94-102 | a gain no larger than the next threshold leaves exp below the new level's threshold |
| PlayerEntity.GainExpLeavesExcess | backend/src/entities/Player.ts:94-102 | level 1, exp 0, gain 350 ends at level 2 with 250 exp, at or above level 2's threshold: one level-up per call |
| PlayerEntity.Player.constructor | backend/src/entities/Player.ts:38-47 | every field is copied from the record and the input buffer is empty |
| PlayerEntity.Player.SetInput | backend/src/entities/Player.ts:59-67 | only the buffer changes, to `Merge` of the old buffer and the input |
| PlayerEntity.Player.ProcessInput | backend/src/entities/Player.ts:70-92 | the pose becomes `Processed` of the old pose and buffer, the position is inside the world, the buffer is emptied; id, level, exp, health and socket are outside the frame |
| PlayerEntity.Player.GainExp | backend/src/entities/Player.ts:94-102 | level, exp and the result are those of `Gain`; nothing else changes |
| EnemyEntity.MoveBody | backend/src/entities/Enemy.ts:39-49 | the position ends inside the world; a velocity component is negated exactly when its integrated coordinate left the box, keeping its magnitude; an in-range coordinate keeps the integrated value, an out-of-range one lands on the wall |
| EnemyEntity.Damage | backend/src/entities/Enemy.ts:52-59 | health drops by exactly the amount; a kill is reported iff health is at or below 0 and then the enemy is dead; alive is never set back to true |
| EnemyEntity.AfterHitsHealth | backend/src/entities/Enemy.ts:52-59 | after n hits health has dropped by n times the amount, and a dead enemy stays dead |
| EnemyEntity.HitReportsKill | backend/src/entities/Enemy.ts:52-59 | the k-th hit reports a kill iff k hits bring the starting health to 0 or below, so every later hit reports one too |
| EnemyEntity.TenthHitKills | backend/src/entities/Enemy.ts:52-59 | from 100 health with 10 per hit, hits 1 to 9 report no kill and hit 10 and later report a kill |
| EnemyEntity.Enemy.constructor | backend/src/entities/Enemy.ts:16-23 | a new enemy has full health (100) and is alive |
| EnemyEntity.Enemy.Move | backend/src/entities/Enemy.ts:36-50 | a live enemy's body becomes `MoveBody` of the old one, inside the world; a dead enemy does not change |
| EnemyEntity.Enemy.TakeDamage | backend/src/entities/Enemy.ts:52-59 | health, alive and the result are those of `Damage`; nothing else changes |
| MapLoading.TileIds | backend/src/MapLoader.ts:56-65 | an id is in the set iff some collideable tile of the tileset has that id plus firstgid |
| MapLoading.CollidableIds | backend/src/MapLoader.ts:53-68 | an id is in the set iff some tileset has a collideable tile whose id plus the tileset's firstgid is that id |
| MapLoading.FindCollidableTiles | backend/src/MapLoader.ts:53-68 | the nested loops build exactly `CollidableIds` of the tilesets |
| MapLoading.LocalIndexInChunk | backend/src/MapLoader.ts:82-86 | for a covered point the local index lies in [0, width*height) |
| MapLoading.NoChunkedLayerBlocksNothing | backend/src/MapLoader.ts:71-95 | a tilemap with no chunked tile layer blocks no point |
| MapLoading.UncoveredNeverBlocked | backend/src/MapLoader.ts:75-80 | a point that no consulted chunk covers is never blocked |
| MapLoading.ChunkCornerNotCovered | backend/src/MapLoader.ts:75-80 | a chunk never answers for its own (x, y) corner |
| MapLoading.MapLoader.constructor | backend/src/MapLoader.ts:46-51 | the loader keeps the tilemap and its collidable set is `CollidableIds` of the tilesets |
| MapLoading.MapLoader.IsTileBlocked | backend/src/MapLoader.ts:70-96 | true iff some chunk of some tile layer with chunks covers the point and holds a collidable id at the local index; it changes nothing |
| GameRules.Lookup | backend/src/server.ts:225 | the pending input of an id is absent iff no entry has that id; a found input is stored under that id |
| GameRules.Store | backend/src/server.ts:180 | afterwards the id maps to the new input, every other id keeps its input, and the key is overwritten in place or appended |
| GameRules.Forget | backend/src/server.ts:192 | afterwards the id has no pending input and every other id keeps its input |
| GameRules.StoreKeepsDistinct | backend/src/server.ts:180 | storing keeps the pending-input keys distinct |
| GameRules.ForgetKeepsDistinct | backend/src/server.ts:192 | deleting keeps the keys distinct, and deleting an absent key changes nothing |
| GameRules.ForgetFirst | backend/src/server.ts:245-247 | deleting the first key leaves the remaining entries in order |
| GameRules.Closest | backend/src/server.ts:265-275 | the pick is alive and within reach, no farther than any enemy in reach, strictly closer than every earlier one in reach (first wins ties); no pick iff none is in reach |
| GameRules.SocketOf | backend/src/server.ts:285-286 | a socket is returned only when the player id maps to a non-empty socket id, and then it is that socket |
| GameRules.Reward | backend/src/server.ts:281-285 | 50 exp is added; reaching level*100 resets exp to 0 and adds exactly one level; nothing else of the record changes |
| GameRules.Attack | backend/src/server.ts:261-296 | no enemy is added or moved; the players' keys, positions, directions and actions are kept, players other than the attacker are unchanged, and the attacker changes at most in level and exp; a level-up goes only to the attacker's socket; with no attacker or no enemy in reach nothing changes |
| GameRules.AttackHitsClosest | backend/src/server.ts:277-280 | only the closest enemy changes: its health drops by 10, and it is alive afterwards iff that health is above 0 |
| GameRules.AttackRewardsKill | backend/src/server.ts:279-289 | only a kill changes the attacker, to `Reward`; a level-up is sent iff the reward gains a level and the attacker has a socket, with the new level |
| GameRules.RewardAgreesWithGainExp | backend/src/server.ts:281-284 | while exp moves in steps of 50 below the threshold, the server's reset agrees with the entity's carry-over |
| GameRules.RewardDropsRemainder | backend/src/server.ts:282-284 | at level 1 with 60 exp a kill leaves the server at 0 exp where the entity's `gainExp(50)` leaves 10 |
| GameRules.Steer | backend/src/server.ts:229-238 | the player's position is the displaced position (±10 per held key) clamped into the world axis by axis, so it equals the displaced position when that is inside; direction and action are copied from the input unconditionally; nothing else changes |
| GameRules.InputStep | backend/src/server.ts:225-242 | players are neither added nor removed and keep their ids; only the entry's player changes, and it ends with the position, direction and action `Steer` gives it (an attack changes only its level and exp); enemies keep ids and positions; without an attack the enemies are unchanged and no level-up is raised |
| GameRules.ProcessAll | backend/src/server.ts:224-243 | over all pending inputs, the players' keys and ids and the enemies' ids and positions are kept, and level-ups are only appended |
| GameRules.ProcessAllSteers | backend/src/server.ts:229-236 | every player with a pending input ends the input phase inside the world |
| GameRules.ProcessAllSteersTo | backend/src/server.ts:224-242 | with distinct pending keys, each pending player ends the input phase with the position, direction and action that `Steer` gives its record and its input |
| GameRules.ProcessAllKeepsIdle | backend/src/server.ts:224-243 | a player with no pending input ends the input phase unchanged |
| GameRules.ProcessEntrySkipsUnknown | backend/src/server.ts:226-227 | an input whose player is not live changes nothing |
| GameRules.MoveEnemy | backend/src/server.ts:94-107 | a dead enemy is unchanged; a live one's position and velocity are exactly the entity's `MoveBody` (integration, per-axis reflection, clamp), so it ends inside the world; id, health and alive are kept |
| GameRules.Survivors | backend/src/server.ts:250-259 | no enemy is added, and every enemy left is alive and inside the world |
| GameRules.SurvivorsAreMoved | backend/src/server.ts:250-259 | every enemy left is an alive enemy of the input, moved |
| GameRules.SurvivorIds | backend/src/server.ts:250-259 | an id is left iff it belonged to an alive enemy |
| GameRules.SurvivorsDistinct | backend/src/server.ts:250-259 | enemy ids stay distinct |
| GameRules.WalkStep | backend/src/server.ts:251-257 | moving the next enemy where it stands, or deleting it, advances the in-place walk by one enemy |
| GameRules.TopUpFillsPopulation | backend/src/server.ts:111-119 | the top-up removes nothing and leaves max(old alive count, 5) alive enemies |
| GameRules.TopUpKeepsInvariant | backend/src/server.ts:115-118 | with fresh spawns, ids stay distinct and every enemy stays inside the world |
| GameRules.AliveViews | backend/src/server.ts:157-172 | an id is a key iff it belongs to an alive enemy, and maps to that enemy's position, health and id |
| GameRules.GetGameState | backend/src/server.ts:298-340 | the snapshot has every player with its values, and exactly the alive enemies with their position, health and id |
| GameRules.FreshAfterUpdate | backend/src/server.ts:212-218 | spawns that are fresh before the tick are still fresh for the enemies left after the update |
| GameRules.TickSnapshot | backend/src/server.ts:212-218 | a tick's snapshot has every player, and none of the enemies spawned in that tick is in it |
| GameRules.TickPopulation | backend/src/server.ts:207-219 | after a tick at least five enemies are alive, enemy ids are distinct and every enemy is inside the world |
| Server.InitRecord | backend/src/server.ts:133-154 | a new player starts at (400, 300), level 1, 0 exp, 100 health, facing right and idle; a stored record is kept apart from its socket; either way the socket is the joining one |
| Server.InitKeepsProgress | backend/src/server.ts:149-154 | a reconnect keeps the stored level, exp and position and moves the player to the new socket |
| Server.World.constructor | backend/src/server.ts:110-120 | the dictionaries start empty, then the first top-up spawns five enemies; the world invariant holds |
| Server.World.Init | backend/src/server.ts:127-175 | both mapping directions are set; the player is stored under its id; the reply is the record, all players and the alive enemies; nothing else changes |
| Server.World.PlayerInput | backend/src/server.ts:177-182 | the input is stored under the socket's player id when that id is truthy; otherwise nothing changes |
| Server.World.Disconnect | backend/src/server.ts:184-195 | for a mapped, truthy player id, that player, both mapping entries and its pending input are removed and the id is announced; otherwise nothing changes |
| Server.World.FindClosest | backend/src/server.ts:265-275 | the scan with its running minimum returns exactly `Closest` |
| Server.World.HandleAttack | backend/src/server.ts:261-296 | players, enemies and the level-up are exactly those of `Attack` |
| Server.World.ApplyInput | backend/src/server.ts:225-242 | players, enemies and the level-up are exactly those of `InputStep` |
| Server.World.ProcessInputs | backend/src/server.ts:223-248 | players, enemies and the level-ups are those of `ProcessAll`; no pending input is left |
| Server.World.ClearInputs | backend/src/server.ts:245-247 | deleting key by key leaves no pending input |
| Server.World.UpdateGameState | backend/src/server.ts:250-259 | the in-place walk of deletions and moves leaves exactly `Survivors` of the old enemies |
| Server.World.CountAlive | backend/src/server.ts:112 | returns the number of alive enemies |
| Server.World.SpawnEnemies | backend/src/server.ts:111-119 | the enemies become `TopUp` of the old ones |
| Server.World.GameLoop | backend/src/server.ts:207-219 | players, enemies, the snapshot and the level-ups are those of the tick function; no pending input is left; the world invariant holds |

## Left out

- Express, socket.io and CORS setup. Message delivery (`emit`, `broadcast`, `to`) is replaced by returned values.
- MongoDB: connecting, `findOne`, `insertOne` and the `updateOne` calls after a join and after a kill are not modelled. The loaded record is the `stored` parameter.
- `setInterval` and `Date.now`: one tick is one call with its `deltaTime`.
- `changeDirection`: its `Math.random`, `cos`/`sin` and self-rescheduling `setTimeout` are not modelled. A new enemy's velocity is part of its `Spawn` input. The timer's later changes to a live enemy's velocity between ticks are not modelled by any `Server.World` method. The `GameRules` functions accept any velocities.
- `uuidv4` and the random spawn positions are not modelled. They arrive as `Spawn` values, assumed fresh and inside the world (`FreshSpawns`).
- `getDistance`'s square root is not modelled. Distances are compared squared, which decides the same.
- The chat relay is a broadcast with no state change.
- The `MapLoader` file read and `JSON.parse` are not modelled. The parsed tilemap is passed in.
- MapLoading.CollidableIds: a tileset with no `tiles` list (which makes the source throw) cannot occur, because `tiles` is always a list.
- MapLoading.MapLoader.IsTileBlocked: coordinates are integers. A fractional coordinate, whose index reads `undefined` in the source, is not modelled.
- Floating point: rounding, NaN and infinities are not modelled. Coordinates are exact reals.
- Object aliasing is not modelled:
  - the Player constructor shares the record's `position` object, so `processInput` also moves the caller's record;
  - `setInput` writes `"attack"` into the caller's input object;
  - the server shares a record's `position` object with the `gameState` payload.
  The model copies values.
- For-in order puts integer-like keys first, in ascending order. Ids are assumed not integer-like, so the order is insertion order.
- Server.World.Init: the awaits inside `init` can interleave with ticks and other handlers. The model runs the handler as one step.
- The `_id` field of stored player records is not modelled.
- Frontend files (rendering, animation, interpolation, DOM chat, localStorage) are not part of this model.

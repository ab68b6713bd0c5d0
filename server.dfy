/** The game server's world: the module-level dictionaries of `server.ts` and the handlers and
    tick phases that update them in place. Each method is proved against the pure tick model
    of `GameRules`. */
module Server {
  import opened Common
  import opened GameRules

  /** What `init` sends back to the joining socket. */
  datatype InitReply = InitReply(playerData: PlayerRecord, players: map<string, PlayerRecord>,
                                 enemies: map<string, EnemyView>)

  /** The record `init` stores: a new player at (400, 300), level 1, no exp, full health,
      facing right and idle, when nothing was stored; otherwise the stored record with its
      socket replaced. */
  function InitRecord(playerId: string, socketId: string, stored: Option<PlayerRecord>): (r: PlayerRecord)
    ensures r.socketId == socketId
    ensures stored.None? ==>
      && r.playerId == playerId && r.position == Vec(400.0, 300.0)
      && r.level == 1 && r.exp == 0 && r.health == 100
      && r.direction == Some("right") && r.action == Some("idle")
    ensures stored.Some? ==> r.(socketId := stored.value.socketId) == stored.value
  {
    match stored
    case None => PlayerRecord(playerId, Vec(400.0, 300.0), 1, 0, 100, socketId, Some("right"), Some("idle"))
    case Some(data) => data.(socketId := socketId)
  }

  /** A reconnect under an existing player id keeps that player's progress and only moves it
      to the new socket. */
  lemma InitKeepsProgress(playerId: string, socketId: string, data: PlayerRecord)
    ensures var r := InitRecord(playerId, socketId, Some(data));
            r.level == data.level && r.exp == data.exp && r.position == data.position && r.socketId == socketId
  {
  }

  /** The world state. Enemies and pending inputs are dictionaries whose insertion order the
      source iterates in, so they are sequences keyed by id; the others are maps. */
  class World {
    var players: map<string, PlayerRecord>
    var enemies: seq<EnemyRecord>
    var socketIdToPlayerId: map<string, string>
    var playerIdToSocketId: map<string, string>
    var latestInputs: seq<PendingInput>

    /** Enemy ids and pending-input keys are dictionary keys, so they are distinct; every
        enemy is inside the world. */
    ghost predicate Valid()
      reads this
    {
      DistinctIds(enemies) && AllInWorld(enemies) && DistinctPending(latestInputs)
    }

    /** Module start-up: empty dictionaries, then the first `spawnEnemies()`. The spawns stand
        for the fresh ids and random in-world positions of the new enemies. */
    constructor (spawns: seq<Spawn>)
      requires |spawns| >= MaxEnemies && FreshSpawns([], spawns)
      ensures players == map[] && socketIdToPlayerId == map[] && playerIdToSocketId == map[]
      ensures latestInputs == []
      ensures enemies == TopUp([], spawns)
      ensures Valid()
    {
      players := map[];
      enemies := [];
      socketIdToPlayerId := map[];
      playerIdToSocketId := map[];
      latestInputs := [];
      new;
      SpawnEnemies(spawns);
      TopUpKeepsInvariant([], spawns);
    }

    /** The `init` handler: maps the socket and the player id to each other, stores the loaded
        (or new) record under the player id and replies with it, all players and the alive
        enemies. The database lookup is the `stored` parameter. */
    method Init(socketId: string, playerId: string, stored: Option<PlayerRecord>) returns (reply: InitReply)
      requires Valid()
      modifies this`socketIdToPlayerId, this`playerIdToSocketId, this`players
      ensures socketIdToPlayerId == old(socketIdToPlayerId)[socketId := playerId]
      ensures playerIdToSocketId == old(playerIdToSocketId)[playerId := socketId]
      ensures players == old(players)[playerId := InitRecord(playerId, socketId, stored)]
      ensures reply == InitReply(InitRecord(playerId, socketId, stored), players, AliveViews(enemies))
      ensures Valid()
    {
      socketIdToPlayerId := socketIdToPlayerId[socketId := playerId];
      playerIdToSocketId := playerIdToSocketId[playerId := socketId];

      var playerData: PlayerRecord;
      if stored.None? {
        playerData := PlayerRecord(playerId, Vec(400.0, 300.0), 1, 0, 100, socketId, Some("right"), Some("idle"));
      } else {
        playerData := stored.value;
        playerData := playerData.(socketId := socketId);
      }
      players := players[playerId := playerData];

      reply := InitReply(playerData, players, AliveViews(enemies));
    }

    /** The `playerInput` handler: the input replaces the pending one of the socket's player;
        a socket with no (or an empty) player id is ignored. */
    method PlayerInput(socketId: string, input: ClientInput)
      requires Valid()
      modifies this`latestInputs
      ensures socketId in socketIdToPlayerId && socketIdToPlayerId[socketId] != "" ==>
              latestInputs == Store(old(latestInputs), socketIdToPlayerId[socketId], input)
      ensures !(socketId in socketIdToPlayerId && socketIdToPlayerId[socketId] != "") ==>
              latestInputs == old(latestInputs)
      ensures Valid()
    {
      if socketId in socketIdToPlayerId {
        var playerId := socketIdToPlayerId[socketId];
        if playerId != "" {
          StoreKeepsDistinct(latestInputs, playerId, input);
          latestInputs := Store(latestInputs, playerId, input);
        }
      }
    }

    /** The `disconnect` handler: removes the socket's player, both mapping entries and the
        player's pending input, and returns the id announced as `playerLeft`; a socket with
        no (or an empty) player id changes nothing. */
    method Disconnect(socketId: string) returns (left: Option<string>)
      requires Valid()
      modifies this`players, this`socketIdToPlayerId, this`playerIdToSocketId, this`latestInputs
      ensures left.Some? <==> socketId in old(socketIdToPlayerId) && old(socketIdToPlayerId)[socketId] != ""
      ensures left.Some? ==>
        && left.value == old(socketIdToPlayerId)[socketId]
        && players == old(players) - {left.value}
        && socketIdToPlayerId == old(socketIdToPlayerId) - {socketId}
        && playerIdToSocketId == old(playerIdToSocketId) - {left.value}
        && latestInputs == Forget(old(latestInputs), left.value)
      ensures left.None? ==>
        && players == old(players) && socketIdToPlayerId == old(socketIdToPlayerId)
        && playerIdToSocketId == old(playerIdToSocketId) && latestInputs == old(latestInputs)
      ensures Valid()
    {
      left := None;
      if socketId in socketIdToPlayerId {
        var playerId := socketIdToPlayerId[socketId];
        if playerId != "" {
          players := players - {playerId};
          socketIdToPlayerId := socketIdToPlayerId - {socketId};
          playerIdToSocketId := playerIdToSocketId - {playerId};
          ForgetKeepsDistinct(latestInputs, playerId);
          latestInputs := Forget(latestInputs, playerId);
          left := Some(playerId);
        }
      }
    }

    /** The scan of `handleAttack`: the closest alive enemy within reach of `pos`, a later
        one replacing the pick only when strictly closer. */
    method FindClosest(pos: Vec) returns (closest: Option<nat>)
      ensures closest == Closest(enemies, pos)
    {
      // `closestEnemy === null` is `None`; `minDistance` is only read once one was found.
      closest := None;
      var minDistance: real := 0.0;
      for i := 0 to |enemies|
        invariant closest == Closest(enemies[..i], pos)
        invariant closest.Some? ==> closest.value < i && minDistance == Distance2(pos, enemies[closest.value].position)
      {
        assert enemies[..i + 1][..i] == enemies[..i];
        assert closest.Some? ==> enemies[..i][closest.value] == enemies[closest.value];
        var enemy := enemies[i];
        if !enemy.alive {
          continue;
        }
        var distance := Distance2(pos, enemy.position);
        if (closest.None? || distance < minDistance) && distance < AttackRangeSquared {
          minDistance := distance;
          closest := Some(i);
        }
      }
      assert enemies[..|enemies|] == enemies;
    }

    /** `handleAttack(playerId)`: hits the closest alive enemy in reach (the first of equally
        close ones), and on a kill rewards the attacker. */
    method HandleAttack(playerId: string) returns (levelUp: Option<LevelUp>)
      modifies this`players, this`enemies
      ensures AttackResult(players, enemies, levelUp) ==
              Attack(old(players), old(enemies), playerIdToSocketId, playerId)
    {
      levelUp := None;
      if playerId !in players {
        return;
      }
      var closest := FindClosest(players[playerId].position);
      if closest.Some? {
        var i := closest.value;
        var enemy := enemies[i];
        enemy := enemy.(health := enemy.health - AttackDamage);
        if enemy.health <= 0 {
          enemy := enemy.(alive := false);
          var player := players[playerId];
          player := player.(exp := player.exp + KillExp);
          if player.exp >= player.level * 100 {
            player := player.(exp := 0, level := player.level + 1);
            if playerId in playerIdToSocketId && playerIdToSocketId[playerId] != "" {
              levelUp := Some(LevelUp(playerIdToSocketId[playerId], player.level));
            }
          }
          players := players[playerId := player];
        }
        enemies := enemies[i := enemy];
      }
    }

    /** The body of the first loop of `processInputs()`: steers the entry's player by the
        input (10 per held key, clamped, direction and action copied) and attacks when the
        input says so; an id with no live player is skipped. */
    method ApplyInput(playerId: string, input: ClientInput) returns (levelUp: Option<LevelUp>)
      modifies this`players, this`enemies
      ensures AttackResult(players, enemies, levelUp) ==
              InputStep(old(players), old(enemies), playerIdToSocketId, PendingInput(playerId, input))
    {
      levelUp := None;
      if playerId !in players {
        return;
      }
      var player := players[playerId];
      var position := player.position;
      if input.left { position := position.(x := position.x - PlayerSpeed); }
      if input.right { position := position.(x := position.x + PlayerSpeed); }
      if input.up { position := position.(y := position.y - PlayerSpeed); }
      if input.down { position := position.(y := position.y + PlayerSpeed); }
      position := Vec(Clamp(position.x, WorldWidth), Clamp(position.y, WorldHeight));
      player := player.(position := position, direction := input.direction, action := input.action);
      assert player == Steer(old(players)[playerId], input);
      players := players[playerId := player];

      if input.attack {
        levelUp := HandleAttack(playerId);
      }
    }

    /** `processInputs()`: applies every pending input in order (moving and turning the
        player, attacking when asked), skipping ids with no live player, then deletes every
        pending input. Returns the level-ups raised, in order. */
    method ProcessInputs() returns (levelUps: seq<LevelUp>)
      requires DistinctPending(latestInputs)
      modifies this`players, this`enemies, this`latestInputs
      ensures Tick(players, enemies, levelUps) ==
              ProcessAll(Tick(old(players), old(enemies), []), playerIdToSocketId, old(latestInputs))
      ensures latestInputs == []
    {
      levelUps := [];
      ghost var start := Tick(players, enemies, []);
      for i := 0 to |latestInputs|
        invariant latestInputs == old(latestInputs)
        invariant Tick(players, enemies, levelUps) == ProcessAll(start, playerIdToSocketId, latestInputs[..i])
        modifies this`players, this`enemies
      {
        assert latestInputs[..i + 1][..i] == latestInputs[..i];
        var levelUp := ApplyInput(latestInputs[i].playerId, latestInputs[i].input);
        if levelUp.Some? {
          levelUps := levelUps + [levelUp.value];
        }
      }
      assert latestInputs[..|latestInputs|] == latestInputs;
      ClearInputs();
    }

    /** The second loop of `processInputs()`: deletes the pending inputs key by key. */
    method ClearInputs()
      requires DistinctPending(latestInputs)
      modifies this`latestInputs
      ensures latestInputs == []
    {
      while |latestInputs| > 0
        invariant DistinctPending(latestInputs)
        decreases |latestInputs|
      {
        ForgetFirst(latestInputs);
        ForgetKeepsDistinct(latestInputs, latestInputs[0].playerId);
        latestInputs := Forget(latestInputs, latestInputs[0].playerId);
      }
    }

    /** `updateGameState(deltaTime)`: walks the enemies in order, moving each alive one and
        deleting each dead one where it stands. */
    method UpdateGameState(deltaTime: real)
      modifies this`enemies
      ensures enemies == Survivors(old(enemies), deltaTime)
    {
      ghost var original := enemies;
      ghost var visited := 0;
      var i := 0;
      while i < |enemies|
        invariant 0 <= visited <= |original|
        invariant i == |Survivors(original[..visited], deltaTime)|
        invariant enemies == Survivors(original[..visited], deltaTime) + original[visited..]
        decreases |enemies| - i
      {
        WalkStep(original, visited, deltaTime);
        assert enemies[i] == original[visited];
        var enemy := enemies[i];
        if enemy.alive {
          enemies := enemies[i := MoveEnemy(enemy, deltaTime)];
          i := i + 1;
        } else {
          enemies := enemies[..i] + enemies[i + 1..];
        }
        visited := visited + 1;
      }
      assert original[..visited] == original;
    }

    /** `Object.values(enemies).filter(alive).length`. */
    method CountAlive() returns (n: nat)
      ensures n == AliveCount(enemies)
    {
      n := 0;
      for j := 0 to |enemies|
        invariant n == AliveCount(enemies[..j])
      {
        assert enemies[..j + 1][..j] == enemies[..j];
        if enemies[j].alive {
          n := n + 1;
        }
      }
      assert enemies[..|enemies|] == enemies;
    }

    /** `spawnEnemies()`: counts the alive enemies, then adds one new enemy per missing one
        up to five, each from the next spawn. */
    method SpawnEnemies(spawns: seq<Spawn>)
      requires |spawns| >= SpawnCount(enemies)
      modifies this`enemies
      ensures enemies == TopUp(old(enemies), spawns)
    {
      var aliveCount := CountAlive();
      var enemiesToSpawn := MaxEnemies - aliveCount;
      ghost var before := enemies;
      var i := 0;
      while i < enemiesToSpawn
        invariant 0 <= i <= |spawns| && i <= SpawnCount(before)
        invariant enemies == before + NewEnemies(spawns[..i])
      {
        assert spawns[..i + 1][..i] == spawns[..i];
        enemies := enemies + [NewEnemy(spawns[i])];
        i := i + 1;
      }
      assert i == SpawnCount(before);
    }

    /** `gameLoop()` for one tick of `deltaTime` milliseconds: inputs, enemy update, the
        broadcast snapshot, then the top-up. Returns the snapshot and the level-ups. */
    method GameLoop(deltaTime: real, spawns: seq<Spawn>) returns (state: GameState, levelUps: seq<LevelUp>)
      requires Valid()
      requires |spawns| >= MaxEnemies && FreshSpawns(enemies, spawns)
      modifies this`players, this`enemies, this`latestInputs
      ensures TickOutcome(players, enemies, state, levelUps) ==
              GameRules.GameLoop(old(players), old(enemies), playerIdToSocketId, old(latestInputs), deltaTime, spawns)
      ensures latestInputs == []
      ensures Valid()
    {
      ghost var start := enemies;
      levelUps := ProcessInputs();
      ghost var processed := enemies;
      assert DistinctIds(processed);
      FreshAfterUpdate(start, processed, deltaTime, spawns);
      UpdateGameState(deltaTime);
      SurvivorsDistinct(processed, deltaTime);
      state := GetGameState(players, enemies);
      TopUpKeepsInvariant(enemies, spawns);
      SpawnEnemies(spawns);
    }
  }
}

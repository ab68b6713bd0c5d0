/** The server's authoritative rules as functions of the world's values: how one tick treats
    pending inputs, attacks, enemy movement and removal, the broadcast snapshot and the
    enemy top-up. The `World` class of module Server runs them step by step. */
module GameRules {
  import opened Common
  import EnemyEntity
  import PlayerEntity

  const TickRate: int := 20
  /** `200 / TICK_RATE`: the distance one held key moves a player per tick. */
  const PlayerSpeed: real := 200.0 / TickRate as real
  const MaxEnemies: int := 5
  /** An attack reaches enemies at distance below 50, compared here as squared distance. */
  const AttackRangeSquared: real := 2500.0
  const AttackDamage: int := 10
  const KillExp: int := 50

  /** A player record as the server stores it. `direction` and `action` are copied from
      client input unconditionally, so they may be `undefined` (`None`). */
  datatype PlayerRecord = PlayerRecord(
    playerId: string, position: Vec, level: int, exp: int, health: int,
    socketId: string, direction: Option<string>, action: Option<string>)

  /** An enemy as the server stores it; it is keyed by its own `id`. */
  datatype EnemyRecord = EnemyRecord(id: string, position: Vec, health: int, alive: bool, velocity: Vec)

  /** A `playerInput` payload. A missing flag is falsy and is `false` here. */
  datatype ClientInput = ClientInput(
    left: bool, right: bool, up: bool, down: bool, attack: bool,
    direction: Option<string>, action: Option<string>)

  /** One entry of `latestInputs`, keyed by player id. */
  datatype PendingInput = PendingInput(playerId: string, input: ClientInput)

  /** The `levelUp` notification, addressed to one socket only. */
  datatype LevelUp = LevelUp(socketId: string, level: int)

  /** A fresh id, an in-world position and a velocity for a new enemy. */
  datatype Spawn = Spawn(id: string, position: Vec, velocity: Vec)

  // ---------------------------------------------------------------------------------
  // latestInputs: a dictionary kept in insertion order, as a for-in loop visits it

  predicate DistinctPending(s: seq<PendingInput>) {
    forall i, j :: 0 <= i < j < |s| ==> s[i].playerId != s[j].playerId
  }

  /** `latestInputs[playerId]`. */
  function Lookup(s: seq<PendingInput>, playerId: string): (r: Option<ClientInput>)
    ensures r.None? <==> forall i :: 0 <= i < |s| ==> s[i].playerId != playerId
    ensures r.Some? ==> exists i :: 0 <= i < |s| && s[i] == PendingInput(playerId, r.value)
  {
    if |s| == 0 then None
    else if s[0].playerId == playerId then Some(s[0].input)
    else Lookup(s[1..], playerId)
  }

  /** `latestInputs[playerId] = input`: overwrites in place, or appends a new key. */
  function Store(s: seq<PendingInput>, playerId: string, input: ClientInput): (r: seq<PendingInput>)
    ensures Lookup(r, playerId) == Some(input)
    ensures forall q :: q != playerId ==> Lookup(r, q) == Lookup(s, q)
    ensures |r| == |s| || r == s + [PendingInput(playerId, input)]
  {
    if |s| == 0 then [PendingInput(playerId, input)]
    else if s[0].playerId == playerId then [PendingInput(playerId, input)] + s[1..]
    else
      var rest := Store(s[1..], playerId, input);
      assert ([s[0]] + rest)[1..] == rest;
      [s[0]] + rest
  }

  /** `delete latestInputs[playerId]`. */
  function Forget(s: seq<PendingInput>, playerId: string): (r: seq<PendingInput>)
    ensures Lookup(r, playerId) == None
    ensures forall q :: q != playerId ==> Lookup(r, q) == Lookup(s, q)
    ensures |r| <= |s|
  {
    if |s| == 0 then []
    else if s[0].playerId == playerId then Forget(s[1..], playerId)
    else
      var rest := Forget(s[1..], playerId);
      assert ([s[0]] + rest)[1..] == rest;
      [s[0]] + rest
  }

  lemma DistinctCons(x: PendingInput, rest: seq<PendingInput>)
    requires DistinctPending(rest)
    requires Lookup(rest, x.playerId) == None
    ensures DistinctPending([x] + rest)
  {
    var r := [x] + rest;
    forall i, j | 0 <= i < j < |r| ensures r[i].playerId != r[j].playerId {
      if i > 0 {
        assert r[i] == rest[i - 1] && r[j] == rest[j - 1];
      } else {
        assert r[j] == rest[j - 1];
      }
    }
  }

  /** Storing keeps the keys of `latestInputs` distinct. */
  lemma {:induction false} StoreKeepsDistinct(s: seq<PendingInput>, playerId: string, input: ClientInput)
    requires DistinctPending(s)
    ensures DistinctPending(Store(s, playerId, input))
  {
    if |s| > 0 {
      assert DistinctPending(s[1..]);
      assert Lookup(s[1..], s[0].playerId) == None;
      if s[0].playerId == playerId {
        DistinctCons(PendingInput(playerId, input), s[1..]);
      } else {
        StoreKeepsDistinct(s[1..], playerId, input);
        DistinctCons(s[0], Store(s[1..], playerId, input));
      }
    }
  }

  /** Deleting keeps the keys of `latestInputs` distinct; deleting an absent key changes nothing. */
  lemma {:induction false} ForgetKeepsDistinct(s: seq<PendingInput>, playerId: string)
    requires DistinctPending(s)
    ensures DistinctPending(Forget(s, playerId))
    ensures Lookup(s, playerId) == None ==> Forget(s, playerId) == s
  {
    if |s| > 0 {
      assert DistinctPending(s[1..]);
      ForgetKeepsDistinct(s[1..], playerId);
      if s[0].playerId != playerId {
        assert Lookup(s[1..], s[0].playerId) == None;
        DistinctCons(s[0], Forget(s[1..], playerId));
      }
    }
  }

  /** Deleting the first key of a dictionary without repeated keys leaves the rest of it. */
  lemma ForgetFirst(s: seq<PendingInput>)
    requires DistinctPending(s) && |s| > 0
    ensures Forget(s, s[0].playerId) == s[1..]
  {
    assert Lookup(s[1..], s[0].playerId) == None;
    ForgetKeepsDistinct(s[1..], s[0].playerId);
  }

  // ---------------------------------------------------------------------------------
  // enemies: a dictionary keyed by enemy id, kept in insertion order

  predicate DistinctIds(s: seq<EnemyRecord>) {
    forall i, j :: 0 <= i < j < |s| ==> s[i].id != s[j].id
  }

  predicate HasId(s: seq<EnemyRecord>, id: string) {
    exists i :: 0 <= i < |s| && s[i].id == id
  }

  predicate AllInWorld(s: seq<EnemyRecord>) {
    forall i :: 0 <= i < |s| ==> InWorld(s[i].position)
  }

  lemma HasIdAppend(s: seq<EnemyRecord>, t: seq<EnemyRecord>, id: string)
    ensures HasId(s + t, id) <==> HasId(s, id) || HasId(t, id)
  {
    if HasId(s + t, id) {
      var i :| 0 <= i < |s + t| && (s + t)[i].id == id;
      if i >= |s| {
        assert t[i - |s|].id == id;
      }
    }
    if HasId(t, id) {
      var i :| 0 <= i < |t| && t[i].id == id;
      assert (s + t)[|s| + i].id == id;
    }
    if HasId(s, id) {
      var i :| 0 <= i < |s| && s[i].id == id;
      assert (s + t)[i].id == id;
    }
  }

  // ---------------------------------------------------------------------------------
  // handleAttack

  /** `getDistance` squared: comparing squares keeps the order of non-negative distances. */
  function Distance2(a: Vec, b: Vec): real {
    var dx := a.x - b.x;
    var dy := a.y - b.y;
    dx * dx + dy * dy
  }

  /** An enemy an attack from `pos` can hit: alive and within the attack range. */
  predicate InReach(pos: Vec, e: EnemyRecord) {
    e.alive && Distance2(pos, e.position) < AttackRangeSquared
  }

  /** The index `handleAttack`'s scan settles on: an enemy in reach replaces the current
      pick only when strictly closer, so the first of equally close enemies wins. */
  function Closest(enemies: seq<EnemyRecord>, pos: Vec): (r: Option<nat>)
    ensures r.Some? ==> r.value < |enemies| && InReach(pos, enemies[r.value])
    ensures r.Some? ==> forall j :: 0 <= j < |enemies| && InReach(pos, enemies[j]) ==>
      Distance2(pos, enemies[r.value].position) <= Distance2(pos, enemies[j].position)
    ensures r.Some? ==> forall j :: 0 <= j < r.value && InReach(pos, enemies[j]) ==>
      Distance2(pos, enemies[r.value].position) < Distance2(pos, enemies[j].position)
    ensures r.None? <==> forall j :: 0 <= j < |enemies| ==> !InReach(pos, enemies[j])
  {
    if |enemies| == 0 then None
    else
      var last := |enemies| - 1;
      var prev := Closest(enemies[..last], pos);
      assert forall j :: 0 <= j < last ==> enemies[..last][j] == enemies[j];
      if InReach(pos, enemies[last]) &&
         (prev.None? || Distance2(pos, enemies[last].position) < Distance2(pos, enemies[prev.value].position))
      then Some(last)
      else prev
  }

  /** The socket `levelUp` goes to: `playerIdToSocketId[playerId]` when truthy. */
  function SocketOf(sockets: map<string, string>, playerId: string): (r: Option<string>)
    ensures r.Some? ==> playerId in sockets && r.value == sockets[playerId] && r.value != ""
    ensures r.None? ==> playerId !in sockets || sockets[playerId] == ""
  {
    if playerId in sockets && sockets[playerId] != "" then Some(sockets[playerId]) else None
  }

  /** A kill's reward: 50 exp; reaching the level's threshold resets exp to 0 (the remainder
      is dropped) and adds one level. Nothing else of the record changes. */
  function Reward(p: PlayerRecord): (r: PlayerRecord)
    ensures r.level == p.level + 1 <==> p.exp + KillExp >= p.level * 100
    ensures r.level != p.level + 1 ==> r.level == p.level && r.exp == p.exp + KillExp
    ensures r.level == p.level + 1 ==> r.exp == 0
    ensures r.(exp := p.exp, level := p.level) == p
  {
    var exp := p.exp + KillExp;
    if exp >= p.level * 100 then p.(exp := 0, level := p.level + 1) else p.(exp := exp)
  }

  datatype AttackResult = AttackResult(players: map<string, PlayerRecord>, enemies: seq<EnemyRecord>, levelUp: Option<LevelUp>)

  /** `handleAttack(playerId)`: the closest enemy in reach loses 10 health; at 0 or below it
      dies and the attacker is rewarded, and a level-up is addressed to the attacker's socket. */
  function Attack(players: map<string, PlayerRecord>, enemies: seq<EnemyRecord>,
                  sockets: map<string, string>, playerId: string): (r: AttackResult)
    ensures |r.enemies| == |enemies|
    ensures forall i :: 0 <= i < |enemies| ==>
      r.enemies[i].id == enemies[i].id && r.enemies[i].position == enemies[i].position &&
      r.enemies[i].velocity == enemies[i].velocity
    ensures r.players.Keys == players.Keys
    ensures forall q :: q in players ==>
      SamePose(r.players[q], players[q]) && r.players[q].playerId == players[q].playerId
    ensures forall q :: q in players && q != playerId ==> r.players[q] == players[q]
    ensures playerId in players ==>
      r.players[playerId].(level := players[playerId].level, exp := players[playerId].exp) == players[playerId]
    ensures r.levelUp.Some? ==> SocketOf(sockets, playerId) == Some(r.levelUp.value.socketId)
    ensures playerId !in players || (forall j :: 0 <= j < |enemies| ==> !InReach(players[playerId].position, enemies[j]))
      ==> r == AttackResult(players, enemies, None)
  {
    if playerId !in players then AttackResult(players, enemies, None)
    else
      var player := players[playerId];
      match Closest(enemies, player.position)
      case None => AttackResult(players, enemies, None)
      case Some(i) =>
        var hit := enemies[i].(health := enemies[i].health - AttackDamage);
        if hit.health <= 0 then
          var rewarded := Reward(player);
          var socket := SocketOf(sockets, playerId);
          var levelUp := if rewarded.level == player.level + 1 && socket.Some?
                         then Some(LevelUp(socket.value, rewarded.level)) else None;
          AttackResult(players[playerId := rewarded], enemies[i := hit.(alive := false)], levelUp)
        else
          AttackResult(players, enemies[i := hit], None)
  }

  /** An attack with an enemy in reach changes exactly the closest one: 10 health less, and
      dead exactly when that reaches 0 or below. */
  lemma AttackHitsClosest(players: map<string, PlayerRecord>, enemies: seq<EnemyRecord>,
                          sockets: map<string, string>, playerId: string, i: nat)
    requires playerId in players
    requires Closest(enemies, players[playerId].position) == Some(i)
    ensures var health := enemies[i].health - AttackDamage;
            Attack(players, enemies, sockets, playerId).enemies ==
              enemies[i := enemies[i].(health := health, alive := health > 0)]
  {
    var hit := enemies[i].(health := enemies[i].health - AttackDamage);
    assert enemies[i].alive;
    if hit.health <= 0 {
      assert Attack(players, enemies, sockets, playerId).enemies == enemies[i := hit.(alive := false)];
    } else {
      assert Attack(players, enemies, sockets, playerId).enemies == enemies[i := hit];
    }
  }

  /** A kill rewards the attacker and sends a level-up exactly when the reward reaches the
      next level and the attacker has a socket; a hit that does not kill changes no player. */
  lemma AttackRewardsKill(players: map<string, PlayerRecord>, enemies: seq<EnemyRecord>,
                          sockets: map<string, string>, playerId: string, j: nat)
    requires playerId in players
    requires j < |enemies| && InReach(players[playerId].position, enemies[j])
    ensures var i := Closest(enemies, players[playerId].position).value;
            var r := Attack(players, enemies, sockets, playerId);
            var killed := enemies[i].health - AttackDamage <= 0;
            var rewarded := Reward(players[playerId]);
            && r.players == (if killed then players[playerId := rewarded] else players)
            && (r.levelUp.Some? <==>
                  killed && rewarded.level == players[playerId].level + 1 && SocketOf(sockets, playerId).Some?)
            && (r.levelUp.Some? ==> r.levelUp.value == LevelUp(SocketOf(sockets, playerId).value, rewarded.level))
  {
    var c := Closest(enemies, players[playerId].position);
    assert c.Some?;
  }

  /** The server's reset of exp to 0 agrees with the entity's carry-over whenever exp only
      ever moves in steps of 50 below the threshold (as kills award it). */
  lemma RewardAgreesWithGainExp(p: PlayerRecord)
    requires p.level >= 1 && 0 <= p.exp < p.level * 100 && p.exp % KillExp == 0
    ensures var g := PlayerEntity.Gain(PlayerEntity.Progress(p.level, p.exp), KillExp).0;
            Reward(p).level == g.level && Reward(p).exp == g.exp
  {
    var k := p.exp / KillExp;
    assert p.exp == 50 * k;
    assert k < 2 * p.level;
    assert p.exp + KillExp <= p.level * 100;
  }

  /** Otherwise they differ: at level 1 with 60 exp a kill leaves the server at 0 exp, the
      entity's `gainExp(50)` at 10. */
  lemma RewardDropsRemainder()
    ensures Reward(PlayerRecord("p", Vec(0.0, 0.0), 1, 60, 100, "s", None, None)).exp == 0
    ensures PlayerEntity.Gain(PlayerEntity.Progress(1, 60), KillExp).0 == PlayerEntity.Progress(2, 10)
  {
  }

  // ---------------------------------------------------------------------------------
  // processInputs

  /** The server's own movement step: each held key moves 10, the position is clamped, and
      direction and action are copied from the input whatever they are. */
  function Steer(p: PlayerRecord, input: ClientInput): (r: PlayerRecord)
    ensures InWorld(r.position)
    ensures var moved := Displace(p.position, input.left, input.right, input.up, input.down, PlayerSpeed);
            && (InWorld(moved) ==> r.position == moved)
            && r.position == ClampToWorld(moved)
    ensures r.direction == input.direction && r.action == input.action
    ensures r.(position := p.position, direction := p.direction, action := p.action) == p
  {
    var moved := Displace(p.position, input.left, input.right, input.up, input.down, PlayerSpeed);
    p.(position := ClampToWorld(moved), direction := input.direction, action := input.action)
  }

  /** Two records agree on position, direction and action, the fields steering writes. */
  predicate SamePose(a: PlayerRecord, b: PlayerRecord) {
    a.position == b.position && a.direction == b.direction && a.action == b.action
  }

  /** The parts of the world a tick's input phase updates, and the level-ups it raised. */
  datatype Tick = Tick(players: map<string, PlayerRecord>, enemies: seq<EnemyRecord>, levelUps: seq<LevelUp>)

  /** The body of one iteration of `processInputs`: an entry with no live player is skipped;
      otherwise the player is steered and, when the input attacks, `handleAttack` runs. */
  function InputStep(players: map<string, PlayerRecord>, enemies: seq<EnemyRecord>,
                     sockets: map<string, string>, entry: PendingInput): (r: AttackResult)
    ensures r.players.Keys == players.Keys
    ensures forall q :: q in players ==> r.players[q].playerId == players[q].playerId
    ensures forall q :: q in players && q != entry.playerId ==> r.players[q] == players[q]
    ensures |r.enemies| == |enemies|
    ensures forall i :: 0 <= i < |enemies| ==>
      r.enemies[i].id == enemies[i].id && r.enemies[i].position == enemies[i].position
    ensures entry.playerId in players ==> InWorld(r.players[entry.playerId].position)
    ensures entry.playerId in players ==>
      SamePose(r.players[entry.playerId], Steer(players[entry.playerId], entry.input))
    ensures entry.playerId in players ==>
      var s := Steer(players[entry.playerId], entry.input);
      var p := r.players[entry.playerId];
      p == s.(level := p.level, exp := p.exp)
    ensures entry.playerId in players && !entry.input.attack ==>
      r.players[entry.playerId] == Steer(players[entry.playerId], entry.input)
    ensures !entry.input.attack ==> r.enemies == enemies && r.levelUp.None?
  {
    if entry.playerId !in players then AttackResult(players, enemies, None)
    else
      var steered := players[entry.playerId := Steer(players[entry.playerId], entry.input)];
      if entry.input.attack then Attack(steered, enemies, sockets, entry.playerId)
      else AttackResult(steered, enemies, None)
  }

  /** One iteration of `processInputs` on the tick state: the level-up it raises, if any, is
      appended. */
  function ProcessEntry(t: Tick, sockets: map<string, string>, entry: PendingInput): Tick {
    var a := InputStep(t.players, t.enemies, sockets, entry);
    Tick(a.players, a.enemies, t.levelUps + (if a.levelUp.Some? then [a.levelUp.value] else []))
  }

  /** `processInputs` over the pending entries in order. Players are neither added nor
      removed, enemies keep their ids and positions, and the level-ups only grow. */
  function ProcessAll(t: Tick, sockets: map<string, string>, pending: seq<PendingInput>): (r: Tick)
    ensures r.players.Keys == t.players.Keys
    ensures forall q :: q in t.players ==> r.players[q].playerId == t.players[q].playerId
    ensures |r.enemies| == |t.enemies|
    ensures forall i :: 0 <= i < |t.enemies| ==>
      r.enemies[i].id == t.enemies[i].id && r.enemies[i].position == t.enemies[i].position
    ensures |t.levelUps| <= |r.levelUps| && r.levelUps[..|t.levelUps|] == t.levelUps
  {
    if |pending| == 0 then t
    else
      var before := ProcessAll(t, sockets, pending[..|pending| - 1]);
      var r := ProcessEntry(before, sockets, pending[|pending| - 1]);
      assert r.levelUps[..|before.levelUps|] == before.levelUps;
      assert r.levelUps[..|t.levelUps|] == before.levelUps[..|t.levelUps|];
      r
  }

  /** Every player with a pending entry ends the input phase inside the world. */
  lemma {:induction false} ProcessAllSteers(t: Tick, sockets: map<string, string>, pending: seq<PendingInput>, q: string)
    requires q in t.players
    requires exists i :: 0 <= i < |pending| && pending[i].playerId == q
    ensures InWorld(ProcessAll(t, sockets, pending).players[q].position)
  {
    var init := pending[..|pending| - 1];
    var entry := pending[|pending| - 1];
    var before := ProcessAll(t, sockets, init);
    assert ProcessAll(t, sockets, pending) == ProcessEntry(before, sockets, entry);
    if entry.playerId != q {
      var i :| 0 <= i < |pending| && pending[i].playerId == q;
      assert init[i].playerId == q;
      ProcessAllSteers(t, sockets, init, q);
    }
  }

  /** With distinct keys, the player of each pending entry ends the input phase where `Steer`
      puts it with that entry's input, facing and acting as that input says; an attack
      changes only its level and exp. */
  lemma {:induction false} ProcessAllSteersTo(t: Tick, sockets: map<string, string>, pending: seq<PendingInput>, i: nat)
    requires DistinctPending(pending)
    requires i < |pending| && pending[i].playerId in t.players
    ensures var q := pending[i].playerId;
            SamePose(ProcessAll(t, sockets, pending).players[q], Steer(t.players[q], pending[i].input))
  {
    var q := pending[i].playerId;
    var init := pending[..|pending| - 1];
    var entry := pending[|pending| - 1];
    var before := ProcessAll(t, sockets, init);
    assert ProcessAll(t, sockets, pending) == ProcessEntry(before, sockets, entry);
    if i == |pending| - 1 {
      forall j | 0 <= j < |init| ensures init[j].playerId != q {
        assert init[j] == pending[j];
      }
      ProcessAllKeepsIdle(t, sockets, init, q);
    } else {
      assert init[i] == pending[i];
      assert DistinctPending(init) by {
        forall a, b | 0 <= a < b < |init| ensures init[a].playerId != init[b].playerId {
          assert init[a] == pending[a] && init[b] == pending[b];
        }
      }
      ProcessAllSteersTo(t, sockets, init, i);
      assert entry.playerId != q;
    }
  }

  /** A player without a pending entry leaves the input phase exactly as it was. */
  lemma {:induction false} ProcessAllKeepsIdle(t: Tick, sockets: map<string, string>, pending: seq<PendingInput>, q: string)
    requires q in t.players
    requires forall i :: 0 <= i < |pending| ==> pending[i].playerId != q
    ensures ProcessAll(t, sockets, pending).players[q] == t.players[q]
  {
    if |pending| > 0 {
      var init := pending[..|pending| - 1];
      var entry := pending[|pending| - 1];
      assert forall i :: 0 <= i < |init| ==> init[i].playerId != q by {
        forall i | 0 <= i < |init| ensures init[i].playerId != q {
          assert init[i] == pending[i];
        }
      }
      ProcessAllKeepsIdle(t, sockets, init, q);
      assert ProcessAll(t, sockets, pending) == ProcessEntry(ProcessAll(t, sockets, init), sockets, entry);
    }
  }

  /** An entry whose player is not (or no longer) live changes nothing. */
  lemma ProcessEntrySkipsUnknown(t: Tick, sockets: map<string, string>, entry: PendingInput)
    requires entry.playerId !in t.players
    ensures ProcessEntry(t, sockets, entry) == t
  {
  }

  // ---------------------------------------------------------------------------------
  // updateGameState

  /** `EnemyImpl.move(deltaTime)`: the same integration, reflection and clamp as the entity;
      a dead enemy is left as it is. */
  function MoveEnemy(e: EnemyRecord, deltaTime: real): (r: EnemyRecord)
    ensures !e.alive ==> r == e
    ensures e.alive ==> InWorld(r.position)
    ensures r.id == e.id && r.health == e.health && r.alive == e.alive
    ensures e.alive ==> EnemyEntity.Body(r.position, r.velocity) ==
                        EnemyEntity.MoveBody(EnemyEntity.Body(e.position, e.velocity), deltaTime)
  {
    if !e.alive then e
    else
      var b := EnemyEntity.MoveBody(EnemyEntity.Body(e.position, e.velocity), deltaTime);
      e.(position := b.position, velocity := b.velocity)
  }

  /** `updateGameState(deltaTime)`: dead enemies are deleted, live ones moved, order kept.
      What is left is alive and inside the world. */
  function Survivors(enemies: seq<EnemyRecord>, deltaTime: real): (r: seq<EnemyRecord>)
    ensures |r| <= |enemies|
    ensures forall i :: 0 <= i < |r| ==> r[i].alive && InWorld(r[i].position)
  {
    if |enemies| == 0 then []
    else
      var last := enemies[|enemies| - 1];
      Survivors(enemies[..|enemies| - 1], deltaTime) + (if last.alive then [MoveEnemy(last, deltaTime)] else [])
  }

  /** Taking one more enemy of the walk into account. */
  lemma SurvivorsStep(s: seq<EnemyRecord>, k: nat, deltaTime: real)
    requires k < |s|
    ensures Survivors(s[..k + 1], deltaTime) ==
            Survivors(s[..k], deltaTime) + (if s[k].alive then [MoveEnemy(s[k], deltaTime)] else [])
  {
    assert s[..k + 1][..k] == s[..k];
  }

  /** One step of the in-place walk of `updateGameState`: with the first `k` enemies done,
      moving the next one where it stands, or deleting it, gives the walk after `k + 1`. */
  lemma WalkStep(s: seq<EnemyRecord>, k: nat, deltaTime: real)
    requires k < |s|
    ensures var done := Survivors(s[..k], deltaTime);
            var current := done + s[k..];
            var next := Survivors(s[..k + 1], deltaTime) + s[k + 1..];
            && current[|done|] == s[k]
            && (s[k].alive ==> current[|done| := MoveEnemy(s[k], deltaTime)] == next)
            && (!s[k].alive ==> current[..|done|] + current[|done| + 1..] == next)
  {
    var done := Survivors(s[..k], deltaTime);
    SurvivorsStep(s, k, deltaTime);
    assert s[k..] == [s[k]] + s[k + 1..];
    var current := done + s[k..];
    if !s[k].alive {
      assert current[..|done|] == done;
      assert current[|done| + 1..] == s[k + 1..];
    }
  }

  /** Every element of `r` is an alive enemy of `enemies`, moved. */
  predicate MovedAlive(r: seq<EnemyRecord>, enemies: seq<EnemyRecord>, deltaTime: real) {
    forall i :: 0 <= i < |r| ==>
      exists j :: 0 <= j < |enemies| && enemies[j].alive && r[i] == MoveEnemy(enemies[j], deltaTime)
  }

  /** Each survivor is an alive enemy of the input, moved. */
  lemma {:induction false} SurvivorsAreMoved(enemies: seq<EnemyRecord>, deltaTime: real)
    ensures MovedAlive(Survivors(enemies, deltaTime), enemies, deltaTime)
  {
    if |enemies| > 0 {
      var init := enemies[..|enemies| - 1];
      var last := enemies[|enemies| - 1];
      SurvivorsAreMoved(init, deltaTime);
      var before := Survivors(init, deltaTime);
      var r := Survivors(enemies, deltaTime);
      assert r == before + (if last.alive then [MoveEnemy(last, deltaTime)] else []);
      forall i | 0 <= i < |r|
        ensures exists j :: 0 <= j < |enemies| && enemies[j].alive && r[i] == MoveEnemy(enemies[j], deltaTime)
      {
        if i < |before| {
          assert r[i] == before[i];
          var j :| 0 <= j < |init| && init[j].alive && before[i] == MoveEnemy(init[j], deltaTime);
          assert enemies[j] == init[j];
        } else {
          assert r[i] == MoveEnemy(enemies[|enemies| - 1], deltaTime);
        }
      }
    }
  }

  /** Exactly the ids of the alive enemies survive. */
  lemma {:induction false} SurvivorIds(enemies: seq<EnemyRecord>, deltaTime: real, id: string)
    ensures HasId(Survivors(enemies, deltaTime), id) <==>
            exists j :: 0 <= j < |enemies| && enemies[j].alive && enemies[j].id == id
  {
    if |enemies| > 0 {
      var init := enemies[..|enemies| - 1];
      var last := enemies[|enemies| - 1];
      SurvivorIds(init, deltaTime, id);
      var before := Survivors(init, deltaTime);
      var tail := if last.alive then [MoveEnemy(last, deltaTime)] else [];
      assert Survivors(enemies, deltaTime) == before + tail;
      HasIdAppend(before, tail, id);
      assert HasId(tail, id) <==> last.alive && last.id == id by {
        if HasId(tail, id) {
          var k :| 0 <= k < |tail| && tail[k].id == id;
        }
        if last.alive && last.id == id {
          assert tail[0].id == id;
        }
      }
      if exists j :: 0 <= j < |enemies| && enemies[j].alive && enemies[j].id == id {
        var j :| 0 <= j < |enemies| && enemies[j].alive && enemies[j].id == id;
        if j < |init| {
          assert init[j].alive && init[j].id == id;
        }
      }
      if exists j :: 0 <= j < |init| && init[j].alive && init[j].id == id {
        var j :| 0 <= j < |init| && init[j].alive && init[j].id == id;
        assert enemies[j] == init[j];
      }
    }
  }

  /** Deleting and moving keeps ids distinct. */
  lemma {:induction false} SurvivorsDistinct(enemies: seq<EnemyRecord>, deltaTime: real)
    requires DistinctIds(enemies)
    ensures DistinctIds(Survivors(enemies, deltaTime))
  {
    if |enemies| > 0 {
      var init := enemies[..|enemies| - 1];
      var last := enemies[|enemies| - 1];
      assert DistinctIds(init);
      SurvivorsDistinct(init, deltaTime);
      var before := Survivors(init, deltaTime);
      var r := Survivors(enemies, deltaTime);
      if last.alive {
        assert r == before + [MoveEnemy(last, deltaTime)];
        SurvivorIds(init, deltaTime, last.id);
        assert forall j :: 0 <= j < |init| ==> init[j].id != last.id by {
          forall j | 0 <= j < |init| ensures init[j].id != last.id {
            assert init[j] == enemies[j];
          }
        }
        assert !HasId(before, last.id);
        forall i, j | 0 <= i < j < |r| ensures r[i].id != r[j].id {
          if j == |r| - 1 {
            assert r[j].id == last.id;
            assert r[i] == before[i];
          } else {
            assert r[i] == before[i] && r[j] == before[j];
          }
        }
      } else {
        assert r == before;
      }
    }
  }

  // ---------------------------------------------------------------------------------
  // spawnEnemies

  /** Number of alive enemies. */
  function AliveCount(s: seq<EnemyRecord>): nat {
    if |s| == 0 then 0
    else AliveCount(s[..|s| - 1]) + (if s[|s| - 1].alive then 1 else 0)
  }

  lemma {:induction false} AliveCountAppend(s: seq<EnemyRecord>, t: seq<EnemyRecord>)
    ensures AliveCount(s + t) == AliveCount(s) + AliveCount(t)
  {
    if |t| > 0 {
      var init := t[..|t| - 1];
      AliveCountAppend(s, init);
      assert (s + t)[..|s + t| - 1] == s + init;
      assert (s + t)[|s + t| - 1] == t[|t| - 1];
    } else {
      assert s + t == s;
    }
  }

  /** An enemy fresh from `new EnemyImpl()`: full health and alive. */
  function NewEnemy(sp: Spawn): EnemyRecord {
    EnemyRecord(sp.id, sp.position, EnemyEntity.DefaultHealth, true, sp.velocity)
  }

  function NewEnemies(spawns: seq<Spawn>): (r: seq<EnemyRecord>)
    ensures |r| == |spawns|
    ensures forall i :: 0 <= i < |spawns| ==> r[i] == NewEnemy(spawns[i])
  {
    if |spawns| == 0 then [] else NewEnemies(spawns[..|spawns| - 1]) + [NewEnemy(spawns[|spawns| - 1])]
  }

  lemma {:induction false} NewEnemiesAlive(spawns: seq<Spawn>)
    ensures AliveCount(NewEnemies(spawns)) == |spawns|
  {
    if |spawns| > 0 {
      NewEnemiesAlive(spawns[..|spawns| - 1]);
      assert NewEnemies(spawns)[..|spawns| - 1] == NewEnemies(spawns[..|spawns| - 1]);
    }
  }

  /** `MAX_ENEMIES - aliveEnemies.length`, when positive: how many enemies a top-up adds. */
  function SpawnCount(enemies: seq<EnemyRecord>): nat {
    if AliveCount(enemies) < MaxEnemies then MaxEnemies - AliveCount(enemies) else 0
  }

  /** Spawns may be added: distinct ids that no current enemy has, in-world positions. */
  predicate FreshSpawns(enemies: seq<EnemyRecord>, spawns: seq<Spawn>) {
    && (forall i, j :: 0 <= i < j < |spawns| ==> spawns[i].id != spawns[j].id)
    && (forall i :: 0 <= i < |spawns| ==> !HasId(enemies, spawns[i].id) && InWorld(spawns[i].position))
  }

  /** `spawnEnemies()`: appends one new enemy per missing live enemy. */
  function TopUp(enemies: seq<EnemyRecord>, spawns: seq<Spawn>): seq<EnemyRecord>
    requires |spawns| >= SpawnCount(enemies)
  {
    enemies + NewEnemies(spawns[..SpawnCount(enemies)])
  }

  /** A top-up removes nothing and leaves max(old alive count, 5) alive enemies. */
  lemma TopUpFillsPopulation(enemies: seq<EnemyRecord>, spawns: seq<Spawn>)
    requires |spawns| >= SpawnCount(enemies)
    ensures |TopUp(enemies, spawns)| >= |enemies| && TopUp(enemies, spawns)[..|enemies|] == enemies
    ensures AliveCount(TopUp(enemies, spawns)) ==
      if AliveCount(enemies) < MaxEnemies then MaxEnemies else AliveCount(enemies)
  {
    var added := NewEnemies(spawns[..SpawnCount(enemies)]);
    AliveCountAppend(enemies, added);
    NewEnemiesAlive(spawns[..SpawnCount(enemies)]);
    assert (enemies + added)[..|enemies|] == enemies;
  }

  /** With fresh spawns a top-up keeps ids distinct and every enemy inside the world. */
  lemma TopUpKeepsInvariant(enemies: seq<EnemyRecord>, spawns: seq<Spawn>)
    requires |spawns| >= SpawnCount(enemies)
    requires DistinctIds(enemies) && AllInWorld(enemies) && FreshSpawns(enemies, spawns)
    ensures DistinctIds(TopUp(enemies, spawns)) && AllInWorld(TopUp(enemies, spawns))
  {
    var added := NewEnemies(spawns[..SpawnCount(enemies)]);
    var r := enemies + added;
    forall i, j | 0 <= i < j < |r| ensures r[i].id != r[j].id {
      if i >= |enemies| {
        assert r[i].id == spawns[i - |enemies|].id && r[j].id == spawns[j - |enemies|].id;
      } else if j >= |enemies| {
        assert r[j].id == spawns[j - |enemies|].id;
        assert !HasId(enemies, spawns[j - |enemies|].id);
      }
    }
    forall i | 0 <= i < |r| ensures InWorld(r[i].position) {
      if i >= |enemies| {
        assert r[i].position == spawns[i - |enemies|].position;
      }
    }
  }

  // ---------------------------------------------------------------------------------
  // getGameState

  datatype PlayerView = PlayerView(
    playerId: string, position: Vec, level: int, exp: int,
    direction: Option<string>, action: Option<string>)

  datatype EnemyView = EnemyView(position: Vec, health: int, id: string)

  /** The `gameState` broadcast. */
  datatype GameState = GameState(players: map<string, PlayerView>, enemies: map<string, EnemyView>)

  function ViewOfPlayer(id: string, p: PlayerRecord): PlayerView {
    PlayerView(id, p.position, p.level, p.exp, p.direction, p.action)
  }

  function ViewOfEnemy(e: EnemyRecord): EnemyView {
    EnemyView(e.position, e.health, e.id)
  }

  /** The alive enemies keyed by id, as both `init`'s reply and `getGameState` build them. */
  function AliveViews(enemies: seq<EnemyRecord>): (r: map<string, EnemyView>)
    requires DistinctIds(enemies)
    ensures forall id :: id in r <==> exists j :: 0 <= j < |enemies| && enemies[j].alive && enemies[j].id == id
    ensures forall j :: 0 <= j < |enemies| && enemies[j].alive ==> r[enemies[j].id] == ViewOfEnemy(enemies[j])
  {
    map j | 0 <= j < |enemies| && enemies[j].alive :: enemies[j].id := ViewOfEnemy(enemies[j])
  }

  /** `getGameState()`: every player and exactly the alive enemies, with their values. */
  function GetGameState(players: map<string, PlayerRecord>, enemies: seq<EnemyRecord>): (r: GameState)
    requires DistinctIds(enemies)
    ensures r.players.Keys == players.Keys
    ensures forall id :: id in players ==> r.players[id] == ViewOfPlayer(id, players[id])
    ensures forall id :: id in r.enemies <==> exists j :: 0 <= j < |enemies| && enemies[j].alive && enemies[j].id == id
    ensures forall j :: 0 <= j < |enemies| && enemies[j].alive ==> r.enemies[enemies[j].id] == ViewOfEnemy(enemies[j])
  {
    GameState(map id | id in players :: ViewOfPlayer(id, players[id]), AliveViews(enemies))
  }

  // ---------------------------------------------------------------------------------
  // gameLoop

  /** What one `gameLoop` produces. */
  datatype TickOutcome = TickOutcome(
    players: map<string, PlayerRecord>, enemies: seq<EnemyRecord>, state: GameState, levelUps: seq<LevelUp>)

  /** One tick in the source's order: process inputs, update enemies, take the snapshot,
      then top up the enemies. */
  function GameLoop(players: map<string, PlayerRecord>, enemies: seq<EnemyRecord>, sockets: map<string, string>,
                    pending: seq<PendingInput>, deltaTime: real, spawns: seq<Spawn>): TickOutcome
    requires DistinctIds(enemies)
    requires |spawns| >= MaxEnemies
  {
    var t := ProcessAll(Tick(players, enemies, []), sockets, pending);
    assert DistinctIds(t.enemies);
    var survivors := Survivors(t.enemies, deltaTime);
    SurvivorsDistinct(t.enemies, deltaTime);
    var state := GetGameState(t.players, survivors);
    TickOutcome(t.players, TopUp(survivors, spawns), state, t.levelUps)
  }

  /** Spawns fresh for the enemies stay fresh for the survivors of the same enemies after
      the input phase, which keeps every id in place. */
  lemma {:induction false} FreshAfterUpdate(enemies: seq<EnemyRecord>, processed: seq<EnemyRecord>,
                                            deltaTime: real, spawns: seq<Spawn>)
    requires |processed| == |enemies|
    requires forall i :: 0 <= i < |enemies| ==> processed[i].id == enemies[i].id
    requires FreshSpawns(enemies, spawns)
    ensures FreshSpawns(Survivors(processed, deltaTime), spawns)
  {
    forall k | 0 <= k < |spawns| ensures !HasId(Survivors(processed, deltaTime), spawns[k].id) {
      SurvivorIds(processed, deltaTime, spawns[k].id);
      assert !HasId(enemies, spawns[k].id);
      forall j | 0 <= j < |processed| ensures processed[j].id != spawns[k].id {
        assert processed[j].id == enemies[j].id;
      }
    }
  }

  /** The snapshot of a tick holds every player and none of this tick's spawns, which are
      added only after the snapshot is taken. */
  lemma TickSnapshot(players: map<string, PlayerRecord>, enemies: seq<EnemyRecord>, sockets: map<string, string>,
                     pending: seq<PendingInput>, deltaTime: real, spawns: seq<Spawn>)
    requires DistinctIds(enemies)
    requires |spawns| >= MaxEnemies && FreshSpawns(enemies, spawns)
    ensures var o := GameLoop(players, enemies, sockets, pending, deltaTime, spawns);
            && o.state.players.Keys == players.Keys
            && (forall k :: 0 <= k < |spawns| ==> spawns[k].id !in o.state.enemies)
  {
    var t := ProcessAll(Tick(players, enemies, []), sockets, pending);
    var survivors := Survivors(t.enemies, deltaTime);
    SurvivorsDistinct(t.enemies, deltaTime);
    FreshAfterUpdate(enemies, t.enemies, deltaTime, spawns);
    assert GameLoop(players, enemies, sockets, pending, deltaTime, spawns).state == GetGameState(t.players, survivors);
  }

  /** After a tick at least five enemies are alive, ids are still distinct and every enemy is
      inside the world. */
  lemma TickPopulation(players: map<string, PlayerRecord>, enemies: seq<EnemyRecord>, sockets: map<string, string>,
                       pending: seq<PendingInput>, deltaTime: real, spawns: seq<Spawn>)
    requires DistinctIds(enemies)
    requires |spawns| >= MaxEnemies && FreshSpawns(enemies, spawns)
    ensures var o := GameLoop(players, enemies, sockets, pending, deltaTime, spawns);
            AliveCount(o.enemies) >= MaxEnemies && DistinctIds(o.enemies) && AllInWorld(o.enemies)
  {
    var t := ProcessAll(Tick(players, enemies, []), sockets, pending);
    var survivors := Survivors(t.enemies, deltaTime);
    SurvivorsDistinct(t.enemies, deltaTime);
    FreshAfterUpdate(enemies, t.enemies, deltaTime, spawns);
    assert GameLoop(players, enemies, sockets, pending, deltaTime, spawns).enemies == TopUp(survivors, spawns);
    TopUpFillsPopulation(survivors, spawns);
    TopUpKeepsInvariant(survivors, spawns);
  }
}

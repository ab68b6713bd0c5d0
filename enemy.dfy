/** The Enemy entity class: velocity integration with reflection and clamping, and damage. */
module EnemyEntity {
  import opened Common

  /** Health a new enemy starts with. */
  const DefaultHealth: int := 100

  /** Position and velocity, the state `move` reads and writes. */
  datatype Body = Body(position: Vec, velocity: Vec)

  /** The integrated, not yet clamped position: velocity is per second, `deltaTime` in ms. */
  function Integrated(b: Body, deltaTime: real): Vec {
    var deltaSeconds := deltaTime / 1000.0;
    Vec(b.position.x + b.velocity.x * deltaSeconds, b.position.y + b.velocity.y * deltaSeconds)
  }

  /** The reflection test of one axis: the coordinate has left [0, hi]. */
  predicate Outside(v: real, hi: real) {
    v < 0.0 || v > hi
  }

  function Abs(v: real): real {
    if v < 0.0 then -v else v
  }

  /** One `move(deltaTime)` of a live enemy: integrate, negate each velocity component whose
      axis left the box, then clamp the position into the box. */
  function MoveBody(b: Body, deltaTime: real): (r: Body)
    ensures InWorld(r.position)
    ensures var u := Integrated(b, deltaTime);
            && (r.velocity.x == if Outside(u.x, WorldWidth) then -b.velocity.x else b.velocity.x)
            && (r.velocity.y == if Outside(u.y, WorldHeight) then -b.velocity.y else b.velocity.y)
    ensures Abs(r.velocity.x) == Abs(b.velocity.x) && Abs(r.velocity.y) == Abs(b.velocity.y)
    ensures var u := Integrated(b, deltaTime);
            && (!Outside(u.x, WorldWidth) ==> r.position.x == u.x)
            && (!Outside(u.y, WorldHeight) ==> r.position.y == u.y)
            && (u.x < 0.0 ==> r.position.x == 0.0) && (u.x > WorldWidth ==> r.position.x == WorldWidth)
            && (u.y < 0.0 ==> r.position.y == 0.0) && (u.y > WorldHeight ==> r.position.y == WorldHeight)
  {
    var u := Integrated(b, deltaTime);
    var vx := if Outside(u.x, WorldWidth) then -b.velocity.x else b.velocity.x;
    var vy := if Outside(u.y, WorldHeight) then -b.velocity.y else b.velocity.y;
    Body(ClampToWorld(u), Vec(vx, vy))
  }

  /** Health and the alive flag, the state `takeDamage` reads and writes. */
  datatype Vitality = Vitality(health: int, alive: bool)

  /** `takeDamage(amount)`: health drops by the amount; at or below zero the enemy is marked
      dead and the call reports a kill. The flag is never set back to alive. */
  function Damage(v: Vitality, amount: int): (r: (Vitality, bool))
    ensures r.0.health == v.health - amount
    ensures r.1 <==> r.0.health <= 0
    ensures r.1 ==> !r.0.alive
    ensures !r.1 ==> r.0.alive == v.alive
    ensures r.0.alive ==> v.alive
  {
    var health := v.health - amount;
    if health <= 0 then (Vitality(health, false), true) else (Vitality(health, v.alive), false)
  }

  /** The state after `n` successive hits of the same amount. */
  function AfterHits(v: Vitality, amount: int, n: nat): Vitality {
    if n == 0 then v else Damage(AfterHits(v, amount, n - 1), amount).0
  }

  /** What the `k`-th of successive hits (counted from 1) returns. */
  function HitReport(v: Vitality, amount: int, k: nat): bool
    requires k >= 1
  {
    Damage(AfterHits(v, amount, k - 1), amount).1
  }

  /** After `n` hits health has dropped by exactly `n` times the amount, and a dead enemy
      stays dead. */
  lemma {:induction false} AfterHitsHealth(v: Vitality, amount: int, n: nat)
    ensures AfterHits(v, amount, n).health == v.health - n * amount
    ensures !v.alive ==> !AfterHits(v, amount, n).alive
  {
    if n > 0 {
      AfterHitsHealth(v, amount, n - 1);
      assert (n - 1) * amount + amount == n * amount;
    }
  }

  /** The `k`-th hit reports a kill exactly when `k` hits bring the starting health to zero
      or below; with a positive amount every later hit reports a kill too, not only the first. */
  lemma HitReportsKill(v: Vitality, amount: int, k: nat)
    requires k >= 1
    ensures HitReport(v, amount, k) <==> v.health - k * amount <= 0
  {
    AfterHitsHealth(v, amount, k - 1);
    assert (k - 1) * amount + amount == k * amount;
  }

  /** An enemy at 100 health hit by 10: hits 1 to 9 report no kill, hit 10 and every hit
      after it report a kill. */
  lemma TenthHitKills(k: nat)
    requires k >= 1
    ensures HitReport(Vitality(DefaultHealth, true), 10, k) <==> k >= 10
  {
    HitReportsKill(Vitality(DefaultHealth, true), 10, k);
  }

  /** The Enemy entity. */
  class Enemy {
    var id: string
    var position: Vec
    var health: int
    var alive: bool
    var velocity: Vec

    /** A fresh enemy: the id and the in-world position the source draws at random, the
        velocity its first direction change picks; full health and alive. */
    constructor (id: string, position: Vec, velocity: Vec)
      requires InWorld(position)
      ensures this.id == id && this.position == position && this.velocity == velocity
      ensures health == DefaultHealth && alive
    {
      this.id := id;
      this.position := position;
      this.health := DefaultHealth;
      this.alive := true;
      this.velocity := velocity;
    }

    function CurrentBody(): Body
      reads this
    {
      Body(position, velocity)
    }

    /** Moves a live enemy; a dead one is left as it is. Only position and velocity can change. */
    method Move(deltaTime: real)
      modifies this`position, this`velocity
      ensures old(alive) ==> CurrentBody() == MoveBody(old(CurrentBody()), deltaTime)
      ensures !old(alive) ==> CurrentBody() == old(CurrentBody())
      ensures old(alive) ==> InWorld(position)
    {
      if !alive {
        return;
      }

      var deltaSeconds := deltaTime / 1000.0;

      position := position.(x := position.x + velocity.x * deltaSeconds);
      position := position.(y := position.y + velocity.y * deltaSeconds);

      if position.x < 0.0 || position.x > WorldWidth {
        velocity := velocity.(x := velocity.x * -1.0);
      }
      if position.y < 0.0 || position.y > WorldHeight {
        velocity := velocity.(y := velocity.y * -1.0);
      }

      position := Vec(Clamp(position.x, WorldWidth), Clamp(position.y, WorldHeight));
    }

    /** Lowers health and reports whether the enemy is now dead. Only health and alive change. */
    method TakeDamage(amount: int) returns (dead: bool)
      modifies this`health, this`alive
      ensures (Vitality(health, alive), dead) == Damage(old(Vitality(health, alive)), amount)
    {
      health := health - amount;
      if health <= 0 {
        alive := false;
        return true;
      }
      return false;
    }
  }
}

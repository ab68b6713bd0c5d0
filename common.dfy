/** Values shared by the entity classes, the tile map and the server loop:
    optional values, 2D vectors, the 800x600 world box and JavaScript truthiness. */
module Common {

  /** An optional value; `None` stands for a JavaScript `undefined`. */
  datatype Option<T> = None | Some(value: T)

  /** A position or a velocity. JavaScript numbers are modelled as reals (no rounding). */
  datatype Vec = Vec(x: real, y: real)

  const WorldWidth: real := 800.0
  const WorldHeight: real := 600.0

  /** `Math.max(0, Math.min(hi, v))`: the clamp every mover applies to each axis. */
  function Clamp(v: real, hi: real): (r: real)
    requires 0.0 <= hi
    ensures 0.0 <= r <= hi
    ensures 0.0 <= v <= hi ==> r == v
    ensures v < 0.0 ==> r == 0.0
    ensures hi < v ==> r == hi
  {
    var m := if v < hi then v else hi;
    if 0.0 < m then m else 0.0
  }

  /** The world box [0, 800] x [0, 600], bounds included. */
  predicate InWorld(p: Vec) {
    0.0 <= p.x <= WorldWidth && 0.0 <= p.y <= WorldHeight
  }

  /** Clamps both coordinates into the world box. */
  function ClampToWorld(p: Vec): (r: Vec)
    ensures InWorld(r)
    ensures InWorld(p) ==> r == p
    ensures p.x < 0.0 ==> r.x == 0.0
    ensures WorldWidth < p.x ==> r.x == WorldWidth
    ensures p.y < 0.0 ==> r.y == 0.0
    ensures WorldHeight < p.y ==> r.y == WorldHeight
  {
    Vec(Clamp(p.x, WorldWidth), Clamp(p.y, WorldHeight))
  }

  /** Contribution of one held key to an axis. */
  function Held(key: bool, speed: real): real {
    if key then speed else 0.0
  }

  /** The four `if (input.left) x -= speed; ...` statements that both the Player entity and
      the server loop run before clamping. */
  function Displace(p: Vec, left: bool, right: bool, up: bool, down: bool, speed: real): (r: Vec)
    ensures r.x == p.x + Held(right, speed) - Held(left, speed)
    ensures r.y == p.y + Held(down, speed) - Held(up, speed)
    ensures left == right ==> r.x == p.x
    ensures up == down ==> r.y == p.y
  {
    var x1 := if left then p.x - speed else p.x;
    var x2 := if right then x1 + speed else x1;
    var y1 := if up then p.y - speed else p.y;
    var y2 := if down then y1 + speed else y1;
    Vec(x2, y2)
  }

  /** JavaScript truthiness of a string that may be undefined: present and not empty. */
  predicate Truthy(s: Option<string>) {
    s.Some? && s.value != ""
  }
}

/** The Player entity class: input buffering, input application and experience. */
module PlayerEntity {
  import opened Common

  /** The record a Player is built from. */
  datatype PlayerData = PlayerData(
    playerId: string, position: Vec, level: int, exp: int, health: int,
    socketId: string, direction: string, action: string)

  /** A partial input: a missing key flag is falsy and is `false` here; a missing string is `None`. */
  datatype InputBuffer = InputBuffer(
    left: bool, right: bool, up: bool, down: bool,
    direction: Option<string>, action: Option<string>)

  /** The empty object `{}` the buffer starts as and is reset to. */
  const EmptyInput: InputBuffer := InputBuffer(false, false, false, false, None, None)

  /** Whether a buffer carries the pending `"attack"` action. */
  predicate IsAttacking(b: InputBuffer) {
    b.action == Some("attack")
  }

  /** The buffer `setInput` leaves: the new input, whose action is forced to `"attack"`
      when the previous buffer held a pending attack. */
  function Merge(prev: InputBuffer, input: InputBuffer): (r: InputBuffer)
    ensures IsAttacking(prev) ==> IsAttacking(r)
    ensures !IsAttacking(prev) ==> r == input
    ensures r.(action := input.action) == input
  {
    if prev.action == Some("attack") then input.(action := Some("attack")) else input
  }

  /** The buffer after successive `setInput` calls, the last input applied last. */
  function MergeAll(start: InputBuffer, inputs: seq<InputBuffer>): InputBuffer
  {
    if |inputs| == 0 then start
    else Merge(MergeAll(start, inputs[..|inputs| - 1]), inputs[|inputs| - 1])
  }

  /** An attack intent survives any number of later inputs until the buffer is consumed:
      the buffer is attacking exactly when it started so or some input attacked, and
      apart from the action it is the last input received. */
  lemma {:induction false} AttackIsSticky(start: InputBuffer, inputs: seq<InputBuffer>)
    ensures IsAttacking(MergeAll(start, inputs)) <==>
            IsAttacking(start) || exists j :: 0 <= j < |inputs| && IsAttacking(inputs[j])
    ensures |inputs| > 0 ==>
            MergeAll(start, inputs).(action := inputs[|inputs| - 1].action) == inputs[|inputs| - 1]
  {
    if |inputs| > 0 {
      var init := inputs[..|inputs| - 1];
      AttackIsSticky(start, init);
      if exists j :: 0 <= j < |init| && IsAttacking(init[j]) {
        var j :| 0 <= j < |init| && IsAttacking(init[j]);
        assert inputs[j] == init[j];
      }
      if exists j :: 0 <= j < |inputs| && IsAttacking(inputs[j]) {
        var j :| 0 <= j < |inputs| && IsAttacking(inputs[j]);
        if j < |init| {
          assert init[j] == inputs[j];
        }
      }
    }
  }

  /** The state `processInput` writes. */
  datatype Pose = Pose(position: Vec, direction: string, action: string)

  /** What `processInput(speed)` makes of a pose: displaced by each held key, clamped to the
      world, and direction/action replaced only by truthy input values. */
  function Processed(pose: Pose, input: InputBuffer, speed: real): (r: Pose)
    ensures InWorld(r.position)
    ensures var moved := Displace(pose.position, input.left, input.right, input.up, input.down, speed);
            && (InWorld(moved) ==> r.position == moved)
            && r.position == ClampToWorld(moved)
    ensures r.direction == if Truthy(input.direction) then input.direction.value else pose.direction
    ensures r.action == if Truthy(input.action) then input.action.value else pose.action
  {
    var moved := Displace(pose.position, input.left, input.right, input.up, input.down, speed);
    var direction := if Truthy(input.direction) then input.direction.value else pose.direction;
    var action := if Truthy(input.action) then input.action.value else pose.action;
    Pose(ClampToWorld(moved), direction, action)
  }

  /** Processing consumes the buffer: a second `processInput` right after (on the emptied
      buffer, with any speed) changes nothing. */
  lemma ProcessInputTwice(pose: Pose, input: InputBuffer, speed: real, speed2: real)
    ensures Processed(Processed(pose, input, speed), EmptyInput, speed2) == Processed(pose, input, speed)
  {
  }

  /** A pose already inside the world and an empty buffer: processing is the identity. */
  lemma ProcessEmptyInWorld(pose: Pose, speed: real)
    requires InWorld(pose.position)
    ensures Processed(pose, EmptyInput, speed) == pose
  {
  }

  /** Level and experience, the two fields `gainExp` updates. */
  datatype Progress = Progress(level: int, exp: int)

  /** The experience needed to leave a level. */
  function Threshold(level: int): int {
    level * 100
  }

  /** `gainExp(amount)`: adds the amount and performs at most one level-up, carrying the
      remainder over. The returned flag says whether it levelled up. */
  function Gain(p: Progress, amount: int): (r: (Progress, bool))
    ensures r.1 <==> p.exp + amount >= Threshold(p.level)
    ensures r.0.level == if r.1 then p.level + 1 else p.level
    ensures r.0.exp + (if r.1 then Threshold(p.level) else 0) == p.exp + amount
  {
    var exp := p.exp + amount;
    if exp >= Threshold(p.level) then (Progress(p.level + 1, exp - Threshold(p.level)), true)
    else (Progress(p.level, exp), false)
  }

  /** With non-negative experience and gain, experience stays non-negative. */
  lemma GainExpKeepsExpNonNegative(p: Progress, amount: int)
    requires p.exp >= 0 && amount >= 0
    ensures Gain(p, amount).0.exp >= 0
  {
  }

  /** A gain no larger than the next level's threshold leaves experience below the new
      threshold, so for such gains one level-up per call is enough. */
  lemma GainExpBelowNextThreshold(p: Progress, amount: int)
    requires 0 <= p.exp < Threshold(p.level)
    requires 0 <= amount <= Threshold(p.level + 1)
    ensures 0 <= Gain(p, amount).0.exp < Threshold(Gain(p, amount).0.level)
  {
  }

  /** A larger gain is NOT fully absorbed: level 1 with 0 exp gaining 350 ends at level 2
      with 250 exp, still at or above level 2's threshold of 200. */
  lemma GainExpLeavesExcess()
    ensures Gain(Progress(1, 0), 350) == (Progress(2, 250), true)
    ensures Gain(Progress(1, 0), 350).0.exp >= Threshold(2)
  {
  }

  /** The Player entity: the fields the constructor copies plus the buffered input. */
  class Player {
    var playerId: string
    var position: Vec
    var level: int
    var exp: int
    var health: int
    var socketId: string
    var direction: string
    var action: string
    var currentInput: InputBuffer

    /** Copies every field of the record; the input buffer starts empty. */
    constructor (data: PlayerData)
      ensures playerId == data.playerId && position == data.position
      ensures level == data.level && exp == data.exp && health == data.health
      ensures socketId == data.socketId && direction == data.direction && action == data.action
      ensures currentInput == EmptyInput
    {
      playerId := data.playerId;
      position := data.position;
      level := data.level;
      exp := data.exp;
      health := data.health;
      socketId := data.socketId;
      direction := data.direction;
      action := data.action;
      currentInput := EmptyInput;
    }

    function CurrentPose(): Pose
      reads this
    {
      Pose(position, direction, action)
    }

    /** Buffers an input, keeping a pending attack. Only the buffer changes. */
    method SetInput(input: InputBuffer)
      modifies this`currentInput
      ensures currentInput == Merge(old(currentInput), input)
    {
      var prev := currentInput;
      currentInput := input;
      if prev.action == Some("attack") {
        currentInput := currentInput.(action := Some("attack"));
      }
    }

    /** Applies the buffered input and empties the buffer. Identity, level, exp, health and
        socket are outside the frame, so they cannot change. */
    method ProcessInput(speed: real)
      modifies this`position, this`direction, this`action, this`currentInput
      ensures CurrentPose() == Processed(old(CurrentPose()), old(currentInput), speed)
      ensures InWorld(position)
      ensures currentInput == EmptyInput
    {
      var input := currentInput;

      if input.left { position := position.(x := position.x - speed); }
      if input.right { position := position.(x := position.x + speed); }
      if input.up { position := position.(y := position.y - speed); }
      if input.down { position := position.(y := position.y + speed); }

      if Truthy(input.direction) {
        direction := input.direction.value;
      }
      if Truthy(input.action) {
        action := input.action.value;
      }

      position := Vec(Clamp(position.x, WorldWidth), Clamp(position.y, WorldHeight));

      currentInput := EmptyInput;
    }

    /** Adds experience with at most one level-up; only level and exp can change. */
    method GainExp(amount: int) returns (leveledUp: bool)
      modifies this`exp, this`level
      ensures (Progress(level, exp), leveledUp) == Gain(Progress(old(level), old(exp)), amount)
    {
      exp := exp + amount;
      if exp >= level * 100 {
        exp := exp - level * 100;
        level := level + 1;
        return true;
      }
      return false;
    }
  }
}

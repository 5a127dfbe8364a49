/** The discrete parts of the player's movement (`PlayerController`): the
    weight accumulator and its speed penalty, the last-direction latch, the
    speed clamp applied each physics step, and the jump phase gate.

    Speeds are exact reals: only their order and the clamp are modelled, not
    the float rounding of `0.95f` or the velocity vector product. */
module PlayerController {
  import opened Int32
  import Mathf

  datatype Vec2 = Vec2(x: real, y: real)

  /** The phases an input action callback reports. */
  datatype Phase = Started | Performed | Canceled

  /** The vertical impulse a jump callback applies, if any. */
  datatype Impulse = NoImpulse | Upward(magnitude: real)

  /** The serialized movement parameters, the movement input, the last facing
      direction and the carried weight. */
  datatype Player = Player(
    speed: real, maxSpeed: real, minSpeed: real, jumpHeight: real,
    direction: Vec2, lastDirection: Vec2, weight: int32)

  const ZERO: Vec2 := Vec2(0.0, 0.0)
  const DOWN: Vec2 := Vec2(0.0, -1.0)
  const MAX_WEIGHT: int32 := 0
  /** `AddWeight` multiplies the speed by this factor. */
  const SLOWDOWN: real := 0.95

  /** The player as its field initialisers leave it. */
  function Initial(): (p: Player)
    ensures p.lastDirection == DOWN && p.weight == 0
    ensures p.speed == 200.0 && p.minSpeed == 50.0 && p.maxSpeed == 1000.0
    ensures p.minSpeed <= p.speed <= p.maxSpeed
  {
    Player(200.0, 1000.0, 50.0, 1.0, ZERO, DOWN, 0)
  }

  /** `Vector2.kEpsilon` squared: Unity's `Vector2 ==` holds when the squared
      distance between the vectors is below this. */
  const EPSILON_SQUARED: real := 0.0000000001

  /** `Vector2.kEpsilon`. */
  const EPSILON: real := 0.00001

  /** Unity's approximate `Vector2` equality, over exact reals: every vector is near
      itself, and near vectors differ by less than `kEpsilon` in each component. */
  predicate Near(a: Vec2, b: Vec2): (r: bool)
    ensures a == b ==> r
    ensures r ==> -EPSILON < a.x - b.x < EPSILON && -EPSILON < a.y - b.y < EPSILON
  {
    SquareBound(a.x - b.x, (a.y - b.y) * (a.y - b.y));
    SquareBound(a.y - b.y, (a.x - b.x) * (a.x - b.x));
    (a.x - b.x) * (a.x - b.x) + (a.y - b.y) * (a.y - b.y) < EPSILON_SQUARED
  }

  /** A square below `kEpsilon` squared, even with a non-negative addend, bounds its root. */
  lemma SquareBound(d: real, extra: real)
    requires 0.0 <= extra
    ensures d * d + extra < EPSILON_SQUARED ==> -EPSILON < d < EPSILON
  {
    if d >= EPSILON {
      assert d * d >= EPSILON * d >= EPSILON * EPSILON;
    } else if d <= -EPSILON {
      assert d * d >= (-EPSILON) * d >= EPSILON * EPSILON;
    }
  }

  /** `Update`: store the movement input; a nonzero input that is not `==` (within
      `kEpsilon`) to the last direction replaces it, so zero input and inputs near
      the last direction leave it alone. */
  function Update(p: Player, input: Vec2): (r: Player)
    ensures r.direction == input
    ensures input != ZERO && !Near(input, p.lastDirection) ==> r.lastDirection == input
    ensures input == ZERO || Near(input, p.lastDirection) ==> r.lastDirection == p.lastDirection
    ensures input != ZERO ==> Near(r.lastDirection, input)
    ensures p.lastDirection != ZERO ==> r.lastDirection != ZERO
    ensures r.(direction := p.direction, lastDirection := p.lastDirection) == p
  {
    var p1 := p.(direction := input);
    // `magnitude > 0` holds exactly for the nonzero vectors
    if !Near(input, p.lastDirection) && input != ZERO then p1.(lastDirection := input) else p1
  }

  /** The speed `FixedUpdate` moves the player with: `speed` clamped into `[minSpeed, maxSpeed]`. */
  function EffectiveSpeed(p: Player): (r: real)
    ensures p.minSpeed <= p.maxSpeed ==> p.minSpeed <= r <= p.maxSpeed
    ensures p.minSpeed <= p.speed <= p.maxSpeed ==> r == p.speed
    ensures p.speed < p.minSpeed ==> r == p.minSpeed
    ensures p.minSpeed <= p.speed && p.maxSpeed < p.speed ==> r == p.maxSpeed
  {
    Mathf.ClampReal(p.speed, p.minSpeed, p.maxSpeed)
  }

  /** `AddWeight`: when the weight held before the call is a multiple of 10 the speed
      drops by 5%; then the weight grows by the gift and is clamped into
      `[0, MAX_WEIGHT]`. With `MAX_WEIGHT` equal to 0 the weight is always 0. */
  function AddWeight(p: Player, given: int32): (r: Player)
    ensures r.weight == MAX_WEIGHT == 0
    ensures p.weight % 10 == 0 ==> r.speed == p.speed * SLOWDOWN
    ensures p.weight % 10 != 0 ==> r.speed == p.speed
    ensures r.(speed := p.speed, weight := p.weight) == p
  {
    // C#'s truncating `%` and Dafny's Euclidean `%` agree on whether the remainder is 0.
    var p1 := if p.weight % 10 == 0 then p.(speed := p.speed * SLOWDOWN) else p;
    p1.(weight := Mathf.Clamp(Wrap(p.weight + given), 0, MAX_WEIGHT))
  }

  /** `HandleJump`: only the performed phase applies an upward impulse of `jumpHeight`. */
  function HandleJump(p: Player, phase: Phase): (r: Impulse)
    ensures r.Upward? <==> phase == Performed
    ensures r.Upward? ==> r.magnitude == p.jumpHeight
  {
    if phase == Performed then Upward(p.jumpHeight) else NoImpulse
  }

  /** The player after a sequence of movement inputs. */
  function Steer(p: Player, inputs: seq<Vec2>): Player
    decreases |inputs|
  {
    if |inputs| == 0 then p else Update(Steer(p, inputs[..|inputs| - 1]), inputs[|inputs| - 1])
  }

  /** Reference for the latch: the latest nonzero input, or the initial direction if there is none. */
  function LastNonzero(initial: Vec2, inputs: seq<Vec2>): Vec2
    decreases |inputs|
  {
    if |inputs| == 0 then initial
    else if inputs[|inputs| - 1] != ZERO then inputs[|inputs| - 1]
    else LastNonzero(initial, inputs[..|inputs| - 1])
  }

  /** The player after collecting a sequence of weights. */
  function Collect(p: Player, gifts: seq<int32>): Player
    decreases |gifts|
  {
    if |gifts| == 0 then p else AddWeight(Collect(p, gifts[..|gifts| - 1]), gifts[|gifts| - 1])
  }

  function Power(x: real, n: nat): real
    decreases n
  {
    if n == 0 then 1.0 else x * Power(x, n - 1)
  }

  /** After any inputs the last direction is within `kEpsilon` of the latest nonzero
      input (see `ZeroInputsKeepDirection` for the case without one); it is always the initial
      direction or one of the inputs, and never zero when it did not start as zero. */
  lemma {:induction false} LastDirectionNearLatestNonzero(p: Player, inputs: seq<Vec2>)
    ensures Near(Steer(p, inputs).lastDirection, LastNonzero(p.lastDirection, inputs))
    ensures Steer(p, inputs).lastDirection == p.lastDirection || Steer(p, inputs).lastDirection in inputs
    ensures p.lastDirection != ZERO ==> Steer(p, inputs).lastDirection != ZERO
    decreases |inputs|
  {
    if |inputs| > 0 {
      var prefix := inputs[..|inputs| - 1];
      LastDirectionNearLatestNonzero(p, prefix);
      assert inputs == prefix + [inputs[|inputs| - 1]];
    }
  }

  /** With no nonzero input the last direction is exactly the initial one. */
  lemma {:induction false} ZeroInputsKeepDirection(p: Player, inputs: seq<Vec2>)
    requires forall i :: 0 <= i < |inputs| ==> inputs[i] == ZERO
    ensures Steer(p, inputs).lastDirection == p.lastDirection
    decreases |inputs|
  {
    if |inputs| > 0 {
      ZeroInputsKeepDirection(p, inputs[..|inputs| - 1]);
    }
  }

  /** An input within `kEpsilon` of the last direction does not replace it. */
  lemma NearInputIgnored()
    ensures Update(Initial(), Vec2(0.0, -0.999999)).lastDirection == DOWN
    ensures Update(Initial(), Vec2(0.0, -0.99)).lastDirection == Vec2(0.0, -0.99)
  {
  }

  /** From the initial player the last direction is never zero. */
  lemma InitialNeverFacesZero(inputs: seq<Vec2>)
    ensures Steer(Initial(), inputs).lastDirection != ZERO
  {
    LastDirectionNearLatestNonzero(Initial(), inputs);
  }

  /** Because the weight is clamped back to 0 by every call, every call after the
      first sees a multiple of 10 and slows the player: `n` pickups starting from a
      weight that is a multiple of 10 multiply the speed by `0.95^n`. */
  lemma {:induction false} EveryPickupSlows(p: Player, gifts: seq<int32>)
    requires p.weight % 10 == 0
    ensures Collect(p, gifts).speed == p.speed * Power(SLOWDOWN, |gifts|)
    ensures Collect(p, gifts).weight == 0 || |gifts| == 0
    decreases |gifts|
  {
    if |gifts| > 0 {
      var prefix := gifts[..|gifts| - 1];
      EveryPickupSlows(p, prefix);
      var before := Collect(p, prefix);
      assert before.weight % 10 == 0;
      calc {
        Collect(p, gifts).speed;
        before.speed * SLOWDOWN;
        p.speed * Power(SLOWDOWN, |prefix|) * SLOWDOWN;
        p.speed * Power(SLOWDOWN, |gifts|);
      }
    }
  }

  /** The initial player, after `n` pickups of any weights, moves at `200 * 0.95^n`
      before the clamp; two pickups already give the penalty twice. */
  lemma InitialPickups(gifts: seq<int32>)
    ensures Collect(Initial(), gifts).speed == 200.0 * Power(SLOWDOWN, |gifts|)
    ensures |gifts| == 2 ==> Collect(Initial(), gifts).speed == 180.5
  {
    EveryPickupSlows(Initial(), gifts);
  }

  /** With the default bounds 50 and 1000 the effective speed always lies between them,
      however many pickups have lowered the stored speed. */
  lemma DefaultSpeedBounds(p: Player)
    requires p.minSpeed == Initial().minSpeed && p.maxSpeed == Initial().maxSpeed
    ensures 50.0 <= EffectiveSpeed(p) <= 1000.0
  {
  }
}

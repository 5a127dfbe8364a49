/** The enemy's behaviour state machine (`EnemyController`): a detection
    trigger starts the chase, a per-frame tick chases or attacks, and an
    attack cooldown latch allows one attack per cooldown.

    Engine calls become data: the distance to the player and the agent's
    x-velocity arrive with each tick, and the tick reports whether it set
    the navigation destination, started a cooldown or zeroed the velocity.
    The cooldown's end is an explicit event instead of a timed coroutine. */
module EnemyController {

  /** `EnemyStates`. */
  datatype Behaviour = Idle | MovingToPlayer | Attack

  /** The enemy's own state plus the two engine fields it writes:
      the sprite's `flipX` and the agent's `isStopped`. */
  datatype Enemy = Enemy(state: Behaviour, attacking: bool, flipX: bool, stopped: bool)

  /** What reaches the enemy. A `Tick` is one `Update` frame. */
  datatype Event =
    | TriggerEnter(name: string)
    | TriggerExit(name: string)
    | Tick(distance: real, velocityX: real)
    | CooldownElapsed

  /** The next state and what the step did to the engine: `destinationSet`
      when it steered the agent at the player, `cooldownStarted` when
      `AttackPlayer` launched a cooldown, `velocityZeroed` when it cleared
      the agent's velocity. */
  datatype Output = Output(next: Enemy, destinationSet: bool, cooldownStarted: bool, velocityZeroed: bool)

  /** The game object name that counts as the player in the triggers. */
  const PLAYER_NAME: string := "Character"

  /** The state invariant of every reachable enemy: attacking implies the latch is set. */
  predicate Inv(e: Enemy) {
    e.state == Attack ==> e.attacking
  }

  /** `Start`: idle, latch clear; the sprite flip and agent stop flag are whatever the
      engine components start with. */
  function Start(flipX: bool, stopped: bool): (r: Enemy)
    ensures r.state == Idle && !r.attacking
    ensures r.flipX == flipX && r.stopped == stopped
    ensures Inv(r)
  {
    Enemy(Idle, false, flipX, stopped)
  }

  /** The sprite flip after chasing with horizontal velocity `velocityX`. */
  function Face(flipX: bool, velocityX: real): (r: bool)
    ensures velocityX > 0.0 ==> !r
    ensures velocityX < 0.0 ==> r
    ensures velocityX == 0.0 ==> r == flipX
  {
    if velocityX > 0.0 then false else if velocityX < 0.0 then true else flipX
  }

  /** `AttackPlayer`: only a clear latch starts a cooldown; the latch is set afterwards
      either way. The second component says whether a cooldown started. */
  function AttackPlayer(e: Enemy): (r: (Enemy, bool))
    ensures r.0.attacking
    ensures r.1 <==> !e.attacking
    ensures r.0 == e.(attacking := true)
  {
    if !e.attacking then (e.(attacking := true), true) else (e, false)
  }

  /** `Update`: the chase-or-attack check, then the per-state switch. */
  function Update(e: Enemy, distance: real, velocityX: real, stoppingDistance: real): (r: Output)
    // the far chasing branch: steer, keep chasing, face the velocity
    ensures e.state == MovingToPlayer && distance > stoppingDistance ==>
              && r.next.state == MovingToPlayer && r.destinationSet && !r.next.stopped
              && r.next.attacking == e.attacking && r.next.flipX == Face(e.flipX, velocityX)
    // within range: the switch to Attack and the attack happen in the same tick
    ensures e.state == MovingToPlayer && distance <= stoppingDistance ==>
              && r.next.state == Attack && r.next.attacking && !r.destinationSet
              && r.next.stopped == e.stopped && (r.cooldownStarted <==> !e.attacking)
    // idle: agent stopped with zero velocity, state stays idle
    ensures e.state == Idle ==> r.next == e.(stopped := true) && r.velocityZeroed && !r.cooldownStarted
    // attacking: stays in Attack whatever the distance; the agent's stop flag is left as it was
    ensures e.state == Attack ==>
              && r.next.state == Attack && r.next.attacking && r.next.stopped == e.stopped
              && (r.cooldownStarted <==> !e.attacking)
    // facing changes only on the far chasing branch
    ensures r.next.flipX != e.flipX ==> e.state == MovingToPlayer && distance > stoppingDistance
    ensures r.destinationSet <==> e.state == MovingToPlayer && distance > stoppingDistance
    ensures r.velocityZeroed <==> e.state == Idle
    ensures r.cooldownStarted <==> !e.attacking && r.next.state == Attack
    ensures r.next.attacking == (e.attacking || r.cooldownStarted)
  {
    var chasing := e.state == MovingToPlayer && distance > stoppingDistance;
    var e1 :=
      if chasing then e.(flipX := Face(e.flipX, velocityX))
      else if e.state == MovingToPlayer then e.(state := Attack)
      else e;
    match e1.state
    case Idle => Output(e1.(stopped := true), chasing, false, true)
    case MovingToPlayer => Output(e1.(stopped := false), chasing, false, false)
    case Attack =>
      var (e2, started) := AttackPlayer(e1);
      Output(e2, chasing, started, false)
  }

  /** `OnTriggerEnter2D`: the player entering starts the chase from any state. */
  function OnTriggerEnter(e: Enemy, name: string): (r: Enemy)
    ensures name == PLAYER_NAME ==> r.state == MovingToPlayer
    ensures name != PLAYER_NAME ==> r == e
    ensures r.attacking == e.attacking && r.flipX == e.flipX && r.stopped == e.stopped
  {
    if name == PLAYER_NAME then e.(state := MovingToPlayer) else e
  }

  /** `OnTriggerExit2D`: the player leaving makes any state idle. */
  function OnTriggerExit(e: Enemy, name: string): (r: Enemy)
    ensures name == PLAYER_NAME ==> r.state == Idle
    ensures name != PLAYER_NAME ==> r == e
    ensures r.attacking == e.attacking && r.flipX == e.flipX && r.stopped == e.stopped
  {
    if name == PLAYER_NAME then e.(state := Idle) else e
  }

  /** The end of `AttackDelay`: clears the latch and resumes the chase from any state,
      including Idle, whether or not the player is still in the trigger. */
  function AttackDelayElapsed(e: Enemy): (r: Enemy)
    ensures !r.attacking && r.state == MovingToPlayer
    ensures r.flipX == e.flipX && r.stopped == e.stopped
  {
    e.(attacking := false, state := MovingToPlayer)
  }

  /** One event. Only a tick touches the engine. */
  function Step(e: Enemy, ev: Event, stoppingDistance: real): (r: Output)
    ensures Inv(e) ==> Inv(r.next)
    ensures !ev.Tick? ==> !r.destinationSet && !r.cooldownStarted && !r.velocityZeroed
    ensures r.cooldownStarted ==> !e.attacking && r.next.attacking
    ensures !r.cooldownStarted && !ev.CooldownElapsed? ==> r.next.attacking == e.attacking
  {
    match ev
    case TriggerEnter(name) => Output(OnTriggerEnter(e, name), false, false, false)
    case TriggerExit(name) => Output(OnTriggerExit(e, name), false, false, false)
    case Tick(distance, velocityX) => Update(e, distance, velocityX, stoppingDistance)
    case CooldownElapsed => Output(AttackDelayElapsed(e), false, false, false)
  }

  /** The state after a sequence of events, and how many cooldowns (attacks) it started. */
  function Run(e: Enemy, evs: seq<Event>, stoppingDistance: real): (Enemy, nat)
    decreases |evs|
  {
    if |evs| == 0 then (e, 0)
    else
      var (prev, n) := Run(e, evs[..|evs| - 1], stoppingDistance);
      var o := Step(prev, evs[|evs| - 1], stoppingDistance);
      (o.next, n + if o.cooldownStarted then 1 else 0)
  }

  /** How many cooldown completions a sequence of events delivers. */
  function Cooldowns(evs: seq<Event>): nat
    decreases |evs|
  {
    if |evs| == 0 then 0
    else Cooldowns(evs[..|evs| - 1]) + if evs[|evs| - 1].CooldownElapsed? then 1 else 0
  }

  /** A cooldown can only complete while one is pending, that is, while the latch is set. */
  predicate WellFormed(e: Enemy, evs: seq<Event>, stoppingDistance: real)
    decreases |evs|
  {
    |evs| == 0 ||
    (WellFormed(e, evs[..|evs| - 1], stoppingDistance) &&
     (evs[|evs| - 1].CooldownElapsed? ==> Run(e, evs[..|evs| - 1], stoppingDistance).0.attacking))
  }

  function Count(b: bool): nat {
    if b then 1 else 0
  }

  /** Every reachable state keeps `Inv`. */
  lemma {:induction false} RunKeepsInv(e: Enemy, evs: seq<Event>, stoppingDistance: real)
    requires Inv(e)
    ensures Inv(Run(e, evs, stoppingDistance).0)
    decreases |evs|
  {
    if |evs| > 0 {
      RunKeepsInv(e, evs[..|evs| - 1], stoppingDistance);
    }
  }

  /** Attacks are paid for by cooldowns: every attack sets the latch and only a
      cooldown completion clears it, so the attacks started over a well-formed run
      equal the cooldowns completed plus the change in the latch. */
  lemma {:induction false} AttackAccounting(e: Enemy, evs: seq<Event>, stoppingDistance: real)
    requires WellFormed(e, evs, stoppingDistance)
    ensures Run(e, evs, stoppingDistance).1 + Count(e.attacking)
            == Cooldowns(evs) + Count(Run(e, evs, stoppingDistance).0.attacking)
    decreases |evs|
  {
    if |evs| > 0 {
      AttackAccounting(e, evs[..|evs| - 1], stoppingDistance);
    }
  }

  /** A run with no cooldown completions is well formed. */
  lemma {:induction false} NoCooldownsWellFormed(e: Enemy, evs: seq<Event>, stoppingDistance: real)
    requires forall i :: 0 <= i < |evs| ==> !evs[i].CooldownElapsed?
    ensures WellFormed(e, evs, stoppingDistance)
    ensures Cooldowns(evs) == 0
    decreases |evs|
  {
    if |evs| > 0 {
      NoCooldownsWellFormed(e, evs[..|evs| - 1], stoppingDistance);
    }
  }

  /** At most one attack per cooldown: however many ticks pass in Attack, without a
      cooldown completion at most one attack starts, and none if the latch was already set. */
  lemma AtMostOneAttackPerCooldown(e: Enemy, evs: seq<Event>, stoppingDistance: real)
    requires forall i :: 0 <= i < |evs| ==> !evs[i].CooldownElapsed?
    ensures Run(e, evs, stoppingDistance).1 <= 1
    ensures e.attacking ==> Run(e, evs, stoppingDistance).1 == 0
  {
    NoCooldownsWellFormed(e, evs, stoppingDistance);
    AttackAccounting(e, evs, stoppingDistance);
  }

  /** The player walks into range, attacks, and walks out of the trigger before the
      cooldown ends: the cooldown still puts the enemy back to chasing, and the next
      far tick steers it at the player although the player is outside the trigger. */
  lemma CooldownResumesChaseAfterExit()
    ensures var s1 := OnTriggerEnter(Start(false, false), PLAYER_NAME);
            var o2 := Update(s1, 5.0, 0.0, 5.0);
            var s3 := OnTriggerExit(o2.next, PLAYER_NAME);
            var s4 := AttackDelayElapsed(s3);
            && o2.cooldownStarted && s3.state == Idle && s3.attacking
            && s4.state == MovingToPlayer && !s4.attacking
            && Update(s4, 9.0, 1.0, 5.0).destinationSet
  {
  }

  /** With stopping distance 5 an enemy at distance 6 moving left chases and faces
      left; at distance 5 it switches to Attack and starts a cooldown in the same tick,
      but the agent is not stopped. */
  lemma ChaseThenAttackScenario()
    ensures var s1 := OnTriggerEnter(Start(false, true), PLAYER_NAME);
            var o2 := Update(s1, 6.0, -1.0, 5.0);
            var o3 := Update(o2.next, 5.0, -1.0, 5.0);
            && o2.destinationSet && o2.next.state == MovingToPlayer && o2.next.flipX && !o2.next.stopped
            && o3.next.state == Attack && o3.cooldownStarted && !o3.next.stopped
  {
  }

  /** An enemy whose idle ticks stopped the agent, and whose first tick after the
      player enters is already in range, attacks with the agent still stopped:
      the `Attack` branch keeps whatever `isStopped` value it finds. */
  lemma InRangeAfterIdleStaysStopped()
    ensures var s1 := Update(Start(false, false), 9.0, 0.0, 5.0).next;
            var s2 := OnTriggerEnter(s1, PLAYER_NAME);
            var o3 := Update(s2, 3.0, 0.0, 5.0);
            && s1.stopped && o3.next.state == Attack && o3.cooldownStarted && o3.next.stopped
  {
  }
}

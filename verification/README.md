# Enemy pursuit, player health and player movement latches, in Dafny

This project models the discrete game logic of a small Unity 2D prototype as
pure step functions over immutable records, and proves properties of them.
It covers three scripts:

- **`EnemyController`**: the enemy's behaviour state machine. The states are
  `Idle`, `MovingToPlayer` and `Attack`, plus the `m_attacking` cooldown
  latch. A detection trigger's enter and exit events, a per-frame tick and
  the end of the attack cooldown drive it. The tick carries the distance to
  the player and the agent's x-velocity. It reports whether it steered the
  agent, started a cooldown or zeroed the velocity. It also updates the
  sprite's `flipX` and the agent's `isStopped`.
- **`PlayerHealth`**: a 32-bit health value clamped into `[0, max]` on every
  write. Three indicator objects (medium health, low health, dead) are
  switched by threshold banding after each write.
- **`PlayerController`**: the weight accumulator and its speed penalty, the
  last-direction latch, the speed clamp used by the physics step, and the
  jump phase gate.

Module `Int32` models C#'s unchecked 32-bit `int` arithmetic. Module
`Mathf` models Unity's `Mathf.Clamp`: below `min` gives `min`, otherwise
above `max` gives `max`. The game scripts call both.

Engine state and engine calls become plain inputs and outputs:

- The distance to the player, the agent's velocity and the movement input
  are parameters.
- The components' starting flags are parameters too: the sprite flip, the
  agent stop flag and the indicator objects' active states.
- The end of a coroutine's wait is an explicit event.

Distances and speeds are exact reals. Only their order and the clamp are
modelled.

Behaviour of the code worth knowing before reading the contracts:

- A trigger enter by the player switches to `MovingToPlayer` from every
  state, not only from `Idle`.
- Reaching the stopping distance switches to `Attack`, but the `Attack`
  branch never writes `isStopped`: it keeps its previous value. After a
  chase it is false. After idle ticks followed by an in-range first tick it
  is true.
- The end of the cooldown always returns to `MovingToPlayer`, even from
  `Idle` after the player has left the trigger. The enemy then chases again
  on far ticks.
- The attack applies no damage: the call is commented out
  (`Assets/Scripts/Enemy/EnemyController.cs:23-24`, `:107-108`).
- Health bands compare the raw value with 66 and 33, not a percentage of
  the maximum.
- A heal that overflows a 32-bit `int` wraps negative and is clamped to 0,
  which shows the dead indicator.
- `AddWeight`'s comment promises a slowdown every two pickups. With
  `m_maxWeight` fixed at 0, the weight is always clamped back to 0, so every
  pickup slows the player.
- The last-direction latch compares vectors with Unity's `Vector2 ==`, which
  treats vectors closer than `kEpsilon` (1e-5) as equal. An input that close
  to the last direction does not replace it.

## Model

| member | source | states |
|---|---|---|
| EnemyController.Start | Assets/Scripts/Enemy/EnemyController.cs:45-51 | the enemy starts `Idle` with the attack latch clear (latch initialiser at line 32), and the reachable-state invariant holds |
| EnemyController.Face | Assets/Scripts/Enemy/EnemyController.cs:70-77 | positive x-velocity faces right (no flip), negative faces left (flip), zero keeps the previous facing |
| EnemyController.AttackPlayer | Assets/Scripts/Enemy/EnemyController.cs:102-111 | a cooldown starts exactly when the latch was clear; afterwards the latch is set and nothing else changes |
| EnemyController.Update | Assets/Scripts/Enemy/EnemyController.cs:63-100 | far chase steers the agent, keeps chasing, unstops it and faces the velocity; in range, the switch to `Attack` and the attack happen in the same tick and `isStopped` keeps its previous value; `Idle` stops the agent with zero velocity and stays `Idle`; `Attack` stays `Attack` and leaves `isStopped` alone; facing changes only on the far chase branch; a cooldown starts exactly when the latch was clear and the next state is `Attack` |
| EnemyController.OnTriggerEnter | Assets/Scripts/Enemy/EnemyController.cs:120-126 | the object named "Character" switches any state to `MovingToPlayer`; any other name changes nothing |
| EnemyController.OnTriggerExit | Assets/Scripts/Enemy/EnemyController.cs:128-134 | the object named "Character" switches any state to `Idle`; any other name changes nothing |
| EnemyController.AttackDelayElapsed | Assets/Scripts/Enemy/EnemyController.cs:113-118 | the end of the cooldown clears the latch and sets `MovingToPlayer` from every state, `Idle` included |
| EnemyController.Step | Assets/Scripts/Enemy/EnemyController.cs:80-117 | every event preserves "in `Attack` implies the latch is set"; only ticks act on the engine; a started cooldown always flips the latch from clear to set |
| EnemyController.RunKeepsInv | Assets/Scripts/Enemy/EnemyController.cs:80-117 | every state reachable by any event sequence satisfies "in `Attack` implies the latch is set" |
| EnemyController.AttackAccounting | Assets/Scripts/Enemy/EnemyController.cs:102-118 | over any run where cooldowns end only while one is pending, attacks started plus the initial latch equal cooldowns completed plus the final latch |
| EnemyController.AtMostOneAttackPerCooldown | Assets/Scripts/Enemy/EnemyController.cs:104-110 | without a cooldown completion, any number of events starts at most one attack, and none when the latch was already set |
| EnemyController.CooldownResumesChaseAfterExit | Assets/Scripts/Enemy/EnemyController.cs:113-134 | attack, then the player leaves the trigger (`Idle`), then the cooldown ends: the enemy is `MovingToPlayer` with a clear latch and steers at the player on the next far tick |
| EnemyController.ChaseThenAttackScenario | Assets/Scripts/Enemy/EnemyController.cs:63-110 | with stopping distance 5, distance 6 and leftward velocity it chases facing left; at distance 5 it enters `Attack` and starts a cooldown, with the agent still not stopped |
| EnemyController.InRangeAfterIdleStaysStopped | Assets/Scripts/Enemy/EnemyController.cs:85-98 | an idle tick stops the agent; if the first tick after the player enters is in range, the enemy attacks with the agent still stopped |
| PlayerHealth.Start | Assets/Scripts/Player/PlayerHealth.cs:21-30 | current health is set to the maximum; the indicator flags are untouched |
| PlayerHealth.CheckHealth | Assets/Scripts/Player/PlayerHealth.cs:44-64 | above 66 hides medium and leaves low alone; (33, 66] shows medium and hides low; (0, 33] shows low; 0 shows dead; dead is never cleared; negative values change nothing |
| PlayerHealth.TakeDamage | Assets/Scripts/Player/PlayerHealth.cs:32-36 | without 32-bit overflow, health becomes `clamp(old - amount, 0, max)`; with a non-negative maximum it always lies in `[0, max]`; non-negative damage never raises it; dead is set exactly when it was set or health is now 0 |
| PlayerHealth.Heal | Assets/Scripts/Player/PlayerHealth.cs:38-42 | without 32-bit overflow, health becomes `clamp(old + value, 0, max)`; it lies in `[0, max]`; a non-negative heal never lowers it; healing at max leaves it at max; dead stays set |
| PlayerHealth.DeadIffReachedZero | Assets/Scripts/Player/PlayerHealth.cs:59-62 | after any sequence of writes, the dead indicator is shown exactly when it was shown before or some write left health at 0, whatever healing followed |
| PlayerHealth.MediumFlagFollowsHistory | Assets/Scripts/Player/PlayerHealth.cs:46-54 | after any sequence of writes, the medium indicator is decided by the latest written value above 33 (shown in (33, 66], hidden above 66), or is the initial flag if there is none |
| PlayerHealth.LowFlagFollowsHistory | Assets/Scripts/Player/PlayerHealth.cs:50-58 | after any sequence of writes, the low indicator is decided by the latest written value in (0, 66] (shown in (0, 33], hidden in (33, 66]), or is the initial flag if there is none |
| PlayerHealth.TrajectoryInBounds | Assets/Scripts/Player/PlayerHealth.cs:34-40 | with a non-negative maximum, every value any sequence of writes produces lies in `[0, max]` |
| PlayerHealth.DamageThenHealRoundTrip | Assets/Scripts/Player/PlayerHealth.cs:32-42 | damage by `a` then heal by `a` restores the value when neither clamp intervened; dead is then set exactly when it was set before or a write reached 0 |
| PlayerHealth.FlagsDoNotRoundTrip | Assets/Scripts/Player/PlayerHealth.cs:32-62 | from 50/100, damage 50 then heal 50 restores the value, but the dead indicator stays shown |
| PlayerHealth.ShowMaskIrrelevant | Assets/Scripts/Player/PlayerHealth.cs:32-36 | the `showMask` argument has no effect on the result |
| PlayerHealth.FourHitsOfTwentyFive | Assets/Scripts/Player/PlayerHealth.cs:12-36 | from 100/100, four hits of 25 give 75, 50, 25, 0; only the fourth shows dead |
| PlayerHealth.HealOverflowWraps | Assets/Scripts/Player/PlayerHealth.cs:38-42 | healing 10 at 100/100 stays at 100; healing by `int.MaxValue` at 100/100 wraps negative, clamps to 0 and shows dead |
| Int32.Wrap | Assets/Scripts/Player/PlayerHealth.cs:34-40 | the unchecked C# `int` result of an exact value: the value itself when it fits in 32 bits, otherwise the 32-bit value congruent to it modulo 2^32 (also the `+=` at `PlayerController.cs:90`) |
| Mathf.Clamp | Assets/Scripts/Player/PlayerHealth.cs:34-40 | Unity's int clamp: below `min` gives `min`, otherwise above `max` gives `max`, otherwise the value; the result lies in `[min, max]` when `min <= max` (also at `PlayerController.cs:93`) |
| Mathf.ClampReal | Assets/Scripts/Player/PlayerController.cs:56 | Unity's float clamp over reals: the same three cases, and the result lies in `[min, max]` when `min <= max` |
| PlayerHealth.Write | Assets/Scripts/Player/PlayerHealth.cs:34-41 | the shared write of both setters: without overflow the stored value is `clamp(exact, 0, max)`, it lies in `[0, max]` for a non-negative maximum, and the flags are then banded by `CheckHealth` |
| PlayerController.Near | Assets/Scripts/Player/PlayerController.cs:70 | Unity's `Vector2 ==`: squared distance below `kEpsilon` squared; every vector is near itself, and near vectors differ by less than `kEpsilon` (1e-5) in each component |
| Mathf.ClampRealIsMinOfMax | Assets/Scripts/Player/PlayerController.cs:56 | with ordered bounds the speed clamp equals `max(min, min(value, max))` |
| Mathf.ClampRealIdempotentMonotone | Assets/Scripts/Player/PlayerController.cs:56 | with ordered bounds the speed clamp is idempotent and monotone |
| Mathf.ClampInvertedBounds | Assets/Scripts/Player/PlayerHealth.cs:34 | with a negative maximum health, every write at or above 0 lands on the maximum, and anything below 0 lands on 0 |
| PlayerController.Initial | Assets/Scripts/Player/PlayerController.cs:21-33 | the speed starts at 200 with bounds 50 and 1000 (so within them), the last direction at (0, -1) and the weight at 0 |
| PlayerController.Update | Assets/Scripts/Player/PlayerController.cs:66-78 | the input is stored; a nonzero input not within `kEpsilon` of the last direction replaces it; zero input or a near input leaves it unchanged; afterwards the last direction is within `kEpsilon` of any nonzero input; a nonzero last direction stays nonzero; nothing else changes |
| PlayerController.EffectiveSpeed | Assets/Scripts/Player/PlayerController.cs:53-59 | the physics speed lies in `[min, max]` when `min <= max`, equals the stored speed inside the range, and equals the bound it crossed outside |
| PlayerController.AddWeight | Assets/Scripts/Player/PlayerController.cs:80-94 | the weight afterwards is always 0 (`m_maxWeight` is 0); the speed is scaled by 0.95 exactly when the pre-add weight is a multiple of 10; nothing else changes |
| PlayerController.HandleJump | Assets/Scripts/Player/PlayerController.cs:96-103 | an upward impulse of `jumpHeight` is applied exactly in the performed phase; started and canceled do nothing |
| PlayerController.LastDirectionNearLatestNonzero | Assets/Scripts/Player/PlayerController.cs:66-78 | after any inputs, the last direction is within `kEpsilon` of the latest nonzero input; it is always the initial direction or one of the inputs; it is never zero if it started nonzero |
| PlayerController.ZeroInputsKeepDirection | Assets/Scripts/Player/PlayerController.cs:70-77 | a run of zero inputs leaves the last direction exactly as it was |
| PlayerController.NearInputIgnored | Assets/Scripts/Player/PlayerController.cs:70-75 | from (0, -1), the input (0, -0.999999) is `==` to the last direction and does not replace it, while (0, -0.99) does |
| PlayerController.InitialNeverFacesZero | Assets/Scripts/Player/PlayerController.cs:30-78 | starting from (0, -1), the last direction is never the zero vector |
| PlayerController.EveryPickupSlows | Assets/Scripts/Player/PlayerController.cs:80-94 | from a weight that is a multiple of 10, `n` pickups of any weights multiply the speed by `0.95^n`, because each one resets the weight to 0 |
| PlayerController.InitialPickups | Assets/Scripts/Player/PlayerController.cs:82-93 | the initial player after `n` pickups has stored speed `200 * 0.95^n`; two pickups give 180.5, not one 5% step |
| PlayerController.DefaultSpeedBounds | Assets/Scripts/Player/PlayerController.cs:21-25 | with the default bounds 50 and 1000, the speed used at line 56 lies in [50, 1000] whatever the stored speed |

## Left out

- Engine calls (`NavMeshAgent.SetDestination`, agent velocity writes, `Rigidbody2D.AddForce` and `linearVelocity`, `SpriteRenderer`, `transform.Find`, `GetComponent`, `Debug.Log`): their inputs and effects are parameters and output flags. Path finding and physics are not modelled.
- `Vector2.Distance`, the velocity product `m_playerDirection * (speed * fixedDeltaTime)` and float rounding (including `0.95f` and the squared-distance test of `Vector2 ==`): speeds, distances and vector components are exact reals.
- `Vector2.magnitude > 0` is modelled as "not the zero vector". A float vector small enough for its squared length to underflow is not modelled.
- Coroutine timing (`WaitForSeconds` in `AttackDelay`, `JumpDelay`, `RespawnDelay`): the end of the attack cooldown is an explicit event.
- `JumpDelay`: the enemy starts a new jump coroutine on every `FixedUpdate` (`Assets/Scripts/Enemy/EnemyController.cs:57-60`, `:136-140`). This is overlapping timed concurrency and is not modelled.
- Damage to the player from the enemy: it is commented out in the source.
- A missing player at the enemy's `Start`: the lookup throws before the state is set, but the state enum's default is `Idle` anyway. Every later `Update` throws unless `m_player` (a public serialized field) was assigned in the Inspector, in which case `Update` runs normally from `Idle`. Not modelled.
- Missing indicator child objects at `PlayerHealth.Start`: the lookups throw. Not modelled.
- `PlayerController.Awake` and `Start`: input action and rigid body lookups only.
- `Assets/Scripts/Collectible/CollectibleBehaviour.cs`: trigger dispatch to collaborators. It calls `addFuel` and `addAmmo`, which `PlayerController` does not define, and its reactivation is coroutine-timed.
- `Assets/Scripts/Collectible/CollectibleController.cs`: one `AddWeight` call on a trigger, then `Destroy`.

/** The player's health gauge (`PlayerHealth`): a 32-bit integer clamped into
    `[0, max]` on every write, and three indicator objects (medium health,
    low health, dead) whose active flags are banded from the new value after
    each write. The flags are only ever switched by that banding, so their
    state depends on the history of writes, not just on the current value. */
module PlayerHealth {
  import opened Int32
  import Mathf

  /** `m_currentHealth`, `m_maxHealth` and the active flags of the three indicator objects. */
  datatype Health = Health(current: int32, max: int32, medium: bool, low: bool, dead: bool)

  /** A write to the gauge: `TakeDamage(amount, showMask)` or `Heal(value)`. */
  datatype Op = Damage(amount: int32, showMask: bool) | Restore(value: int32)

  const DEFAULT_HEALTH: int32 := 100

  /** The bands `CheckHealth` distinguishes. */
  const MEDIUM_CEILING: int := 66
  const LOW_CEILING: int := 33

  /** A gauge whose value lies within its bounds. */
  predicate Valid(h: Health) {
    0 <= h.current <= h.max
  }

  /** `Start`: health is filled to the maximum; the flags keep the scene's initial
      active states (the banding does not run here). */
  function Start(h: Health): (r: Health)
    ensures r.current == r.max == h.max
    ensures r.medium == h.medium && r.low == h.low && r.dead == h.dead
    ensures 0 <= h.max ==> Valid(r)
  {
    h.(current := h.max)
  }

  /** `CheckHealth`: above 66 hides the medium indicator; (33, 66] shows medium
      and hides low; (0, 33] shows low; exactly 0 shows dead. Nothing hides dead. */
  function CheckHealth(h: Health): (r: Health)
    ensures r.current == h.current && r.max == h.max
    ensures h.current > MEDIUM_CEILING ==> !r.medium && r.low == h.low && r.dead == h.dead
    ensures LOW_CEILING < h.current <= MEDIUM_CEILING ==> r.medium && !r.low && r.dead == h.dead
    ensures 0 < h.current <= LOW_CEILING ==> r.low && r.medium == h.medium && r.dead == h.dead
    ensures h.current == 0 ==> r.dead && r.medium == h.medium && r.low == h.low
    ensures h.current < 0 ==> r == h
    ensures r.dead <==> h.dead || h.current == 0
  {
    var h1 := if h.current > MEDIUM_CEILING then h.(medium := false) else h;
    var h2 := if h.current <= MEDIUM_CEILING && h.current > LOW_CEILING then h1.(medium := true, low := false) else h1;
    if h.current <= LOW_CEILING && h.current > 0 then h2.(low := true)
    else if h.current == 0 then h2.(dead := true)
    else h2
  }

  /** The clamped write both setters share: the wrapped 32-bit result clamped into `[0, max]`. */
  function Write(h: Health, exact: int): (r: Health)
    ensures r.max == h.max
    ensures 0 <= h.max ==> Valid(r)
    ensures InRange(exact) ==> r.current == Mathf.Clamp(exact, 0, h.max)
    ensures r == CheckHealth(h.(current := r.current))
  {
    CheckHealth(h.(current := Mathf.Clamp(Wrap(exact), 0, h.max)))
  }

  /** `TakeDamage`: health becomes `clamp(current - amount, 0, max)`; `showMask` is ignored. */
  function TakeDamage(h: Health, amount: int32, showMask: bool): (r: Health)
    ensures r.max == h.max
    ensures 0 <= h.max ==> Valid(r)
    ensures InRange(h.current - amount) ==> r.current == Mathf.Clamp(h.current - amount, 0, h.max)
    ensures Valid(h) && 0 <= amount ==> r.current <= h.current
    ensures r.dead <==> h.dead || r.current == 0
  {
    Write(h, h.current - amount)
  }

  /** `Heal`: health becomes `clamp(current + value, 0, max)`. */
  function Heal(h: Health, value: int32): (r: Health)
    ensures r.max == h.max
    ensures 0 <= h.max ==> Valid(r)
    ensures InRange(h.current + value) ==> r.current == Mathf.Clamp(h.current + value, 0, h.max)
    ensures Valid(h) && 0 <= value && InRange(h.current + value) ==> h.current <= r.current
    ensures Valid(h) && h.current == h.max && 0 <= value && InRange(h.current + value) ==> r.current == h.max
    ensures r.dead <==> h.dead || r.current == 0
  {
    Write(h, h.current + value)
  }

  function Apply(h: Health, op: Op): Health {
    match op
    case Damage(amount, showMask) => TakeDamage(h, amount, showMask)
    case Restore(value) => Heal(h, value)
  }

  /** The gauge after a sequence of writes. */
  function Run(h: Health, ops: seq<Op>): Health
    decreases |ops|
  {
    if |ops| == 0 then h else Apply(Run(h, ops[..|ops| - 1]), ops[|ops| - 1])
  }

  /** The health values the writes leave behind, one per write. */
  function Trajectory(h: Health, ops: seq<Op>): (vs: seq<int>)
    ensures |vs| == |ops|
    decreases |ops|
  {
    if |ops| == 0 then []
    else Trajectory(h, ops[..|ops| - 1]) + [Run(h, ops).current]
  }

  /** Reference for the medium flag: the latest value above 33 decides it
      (shown for (33, 66], hidden above 66); with none, the initial flag stands. */
  function MediumAfter(initial: bool, vs: seq<int>): bool
    decreases |vs|
  {
    if |vs| == 0 then initial
    else if vs[|vs| - 1] > LOW_CEILING then vs[|vs| - 1] <= MEDIUM_CEILING
    else MediumAfter(initial, vs[..|vs| - 1])
  }

  /** Reference for the low flag: the latest value in (0, 66] decides it
      (shown for (0, 33], hidden for (33, 66]); with none, the initial flag stands. */
  function LowAfter(initial: bool, vs: seq<int>): bool
    decreases |vs|
  {
    if |vs| == 0 then initial
    else if 0 < vs[|vs| - 1] <= MEDIUM_CEILING then vs[|vs| - 1] <= LOW_CEILING
    else LowAfter(initial, vs[..|vs| - 1])
  }

  /** The dead flag is sticky: it is set after a run exactly when it was set before
      or some write left health at 0, whatever healing followed. */
  lemma {:induction false} DeadIffReachedZero(h: Health, ops: seq<Op>)
    ensures Run(h, ops).dead <==> h.dead || 0 in Trajectory(h, ops)
    decreases |ops|
  {
    if |ops| > 0 {
      var prefix := ops[..|ops| - 1];
      DeadIffReachedZero(h, prefix);
      assert Trajectory(h, ops) == Trajectory(h, prefix) + [Run(h, ops).current];
    }
  }

  /** The medium flag after a run is the reference banding of the values written. */
  lemma {:induction false} MediumFlagFollowsHistory(h: Health, ops: seq<Op>)
    ensures Run(h, ops).medium == MediumAfter(h.medium, Trajectory(h, ops))
    decreases |ops|
  {
    if |ops| > 0 {
      var prefix := ops[..|ops| - 1];
      MediumFlagFollowsHistory(h, prefix);
      var vs := Trajectory(h, ops);
      assert vs[..|vs| - 1] == Trajectory(h, prefix);
    }
  }

  /** The low flag after a run is the reference banding of the values written. */
  lemma {:induction false} LowFlagFollowsHistory(h: Health, ops: seq<Op>)
    ensures Run(h, ops).low == LowAfter(h.low, Trajectory(h, ops))
    decreases |ops|
  {
    if |ops| > 0 {
      var prefix := ops[..|ops| - 1];
      LowFlagFollowsHistory(h, prefix);
      var vs := Trajectory(h, ops);
      assert vs[..|vs| - 1] == Trajectory(h, prefix);
    }
  }

  /** With a non-negative maximum every value a run writes lies in `[0, max]`. */
  lemma {:induction false} TrajectoryInBounds(h: Health, ops: seq<Op>)
    requires 0 <= h.max
    ensures forall i :: 0 <= i < |ops| ==> 0 <= Trajectory(h, ops)[i] <= h.max
    ensures Run(h, ops).max == h.max
    decreases |ops|
  {
    if |ops| > 0 {
      TrajectoryInBounds(h, ops[..|ops| - 1]);
    }
  }

  /** Damage then an equal heal restores the value when neither write was clamped;
      the dead indicator does not come back down if the damage reached 0. */
  lemma DamageThenHealRoundTrip(h: Health, amount: int32, showMask: bool)
    requires Valid(h) && 0 <= h.current - amount <= h.max
    ensures Heal(TakeDamage(h, amount, showMask), amount).current == h.current
    ensures Heal(TakeDamage(h, amount, showMask), amount).dead <==> h.dead || h.current == amount || h.current == 0
  {
  }

  /** The flags do not round-trip: from 50/100, damage 50 then heal 50 restores the
      value but leaves the dead indicator shown. */
  lemma FlagsDoNotRoundTrip()
    ensures var r := Heal(TakeDamage(Health(50, 100, true, false, false), 50, false), 50);
            r.current == 50 && r.dead
  {
  }

  /** The mask argument of `TakeDamage` has no effect on the gauge. */
  lemma ShowMaskIrrelevant(h: Health, amount: int32)
    ensures TakeDamage(h, amount, true) == TakeDamage(h, amount, false)
  {
  }

  /** From a full 100/100 gauge, four hits of 25 leave 75, 50, 25 and 0, and only
      the last one shows the dead indicator. */
  lemma FourHitsOfTwentyFive(medium: bool, low: bool)
    ensures var h0 := Start(Health(DEFAULT_HEALTH, DEFAULT_HEALTH, medium, low, false));
            var h1 := TakeDamage(h0, 25, true);
            var h2 := TakeDamage(h1, 25, true);
            var h3 := TakeDamage(h2, 25, true);
            var h4 := TakeDamage(h3, 25, true);
            && h1.current == 75 && h2.current == 50 && h3.current == 25 && h4.current == 0
            && !h1.dead && !h2.dead && !h3.dead && h4.dead
            && !h1.medium && h2.medium && !h2.low && h3.low && h4.low
  {
  }

  /** Healing at full health keeps it full, but a heal large enough to overflow a
      32-bit `int` wraps negative, is clamped to 0 and shows the dead indicator. */
  lemma HealOverflowWraps()
    ensures Heal(Health(100, 100, false, false, false), 10).current == 100
    ensures var r := Heal(Health(100, 100, false, false, false), MAX as int32);
            r.current == 0 && r.dead
  {
  }
}

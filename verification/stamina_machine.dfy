/** The stamina and movement status machine run by AMain::Tick, as a function
    of the state before the tick, the drain/regeneration amount of the tick and
    the input flags. Numbers are reals: the float rounding of the source is not
    modelled. */
module StaminaMachine {
  import opened MainTypes

  /** The designer-set constants the machine reads. */
  datatype StaminaConfig = StaminaConfig(maxStamina: real, minSprintStamina: real, drainRate: real)

  /** The part of the character a tick updates. */
  datatype Vitals = Vitals(stamina: real, status: StaminaStatus, movement: MovementStatus)

  /** One tick's input: the frame time and the sprint and movement intents. */
  datatype TickInput = TickInput(dt: real, sprint: bool, moving: bool)

  /** The amount drained (or regenerated) during a tick of length `dt`: the
      same rate serves both directions. */
  function Delta(c: StaminaConfig, dt: real): real
  {
    c.drainRate * dt
  }

  /** The state after one tick, branch by branch on the stamina status. A dead
      character is frozen; a sprint held while standing still costs nothing
      (the drain is refunded); the sentinel status changes nothing. A tick
      never kills or revives, and never leaves the live statuses. */
  function Step(c: StaminaConfig, v: Vitals, delta: real, sprint: bool, moving: bool): (r: Vitals)
    ensures r.movement.Dead? <==> v.movement.Dead?
    ensures r.status.IsLive() <==> v.status.IsLive()
  {
    if v.movement.Dead? then v
    else match v.status
      case Normal =>
        if sprint then
          var status := if v.stamina - delta <= c.minSprintStamina then BelowMinimum else StaminaStatus.Normal;
          if moving then Vitals(v.stamina - delta, status, Sprinting)
          else Vitals(v.stamina, status, MovementStatus.Normal)
        else
          var regen := if v.stamina + delta >= c.maxStamina then c.maxStamina else v.stamina + delta;
          Vitals(regen, StaminaStatus.Normal, MovementStatus.Normal)
      case BelowMinimum =>
        if sprint then
          if v.stamina - delta <= 0.0 then Vitals(0.0, Exhausted, MovementStatus.Normal)
          else if moving then Vitals(v.stamina - delta, BelowMinimum, Sprinting)
          else Vitals(v.stamina, BelowMinimum, MovementStatus.Normal)
        else
          var status := if v.stamina + delta >= c.minSprintStamina then StaminaStatus.Normal else BelowMinimum;
          Vitals(v.stamina + delta, status, MovementStatus.Normal)
      case Exhausted =>
        if sprint then Vitals(0.0, Exhausted, MovementStatus.Normal)
        else Vitals(v.stamina + delta, ExhaustedRecovering, MovementStatus.Normal)
      case ExhaustedRecovering =>
        var status := if v.stamina + delta >= c.minSprintStamina then StaminaStatus.Normal else ExhaustedRecovering;
        Vitals(v.stamina + delta, status, MovementStatus.Normal)
      case DefaultMax => v
  }

  /** The state after a sequence of ticks. However many ticks run, they
      neither kill nor revive the character, and the status stays live. */
  function Run(c: StaminaConfig, v: Vitals, ticks: seq<TickInput>): (r: Vitals)
    ensures r.movement.Dead? <==> v.movement.Dead?
    ensures r.status.IsLive() <==> v.status.IsLive()
    decreases |ticks|
  {
    if ticks == [] then v
    else Run(c, Step(c, v, Delta(c, ticks[0].dt), ticks[0].sprint, ticks[0].moving), ticks[1..])
  }

  // ---------------------------------------------------------------------------
  // One tick, branch by branch

  /** A dead character's tick changes nothing. */
  lemma DeadTickIsFrozen(c: StaminaConfig, v: Vitals, delta: real, sprint: bool, moving: bool)
    requires v.movement.Dead?
    ensures Step(c, v, delta, sprint, moving) == v
  {
  }

  /** Normal, sprint released: stamina regenerates by the tick's amount,
      capped at the maximum (a stamina above the maximum is brought back down
      to it), and the character walks normally. */
  lemma NormalRegenerates(c: StaminaConfig, v: Vitals, delta: real, moving: bool)
    requires !v.movement.Dead? && v.status == StaminaStatus.Normal
    ensures var r := Step(c, v, delta, false, moving);
      && r.status == StaminaStatus.Normal && r.movement == MovementStatus.Normal
      && r.stamina == (if v.stamina + delta >= c.maxStamina then c.maxStamina else v.stamina + delta)
      && r.stamina <= c.maxStamina
      && (0.0 <= delta && v.stamina <= c.maxStamina ==> v.stamina <= r.stamina)
  {
  }

  /** In every live regime, a tick with sprint released never costs stamina
      (from a stamina no higher than the maximum). */
  lemma ReleaseNeverDrains(c: StaminaConfig, v: Vitals, delta: real, moving: bool)
    requires !v.movement.Dead? && v.status.IsLive()
    requires 0.0 <= delta && v.stamina <= c.maxStamina
    ensures v.stamina <= Step(c, v, delta, false, moving).stamina
  {
  }

  /** Normal, sprint held: the status drops to BelowMinimum exactly when the
      drained stamina would be at or under the sprint minimum. */
  lemma NormalSprintThreshold(c: StaminaConfig, v: Vitals, delta: real, moving: bool)
    requires !v.movement.Dead? && v.status == StaminaStatus.Normal
    ensures var r := Step(c, v, delta, true, moving);
      && (r.status == BelowMinimum <==> v.stamina - delta <= c.minSprintStamina)
      && (r.status == StaminaStatus.Normal <==> v.stamina - delta > c.minSprintStamina)
  {
  }

  /** Sprint held in Normal or BelowMinimum without exhausting: a moving
      character sprints and pays the drain, a stationary one walks and keeps
      its stamina. BelowMinimum stays BelowMinimum. */
  lemma SprintDrainsOnlyWhenMoving(c: StaminaConfig, v: Vitals, delta: real, moving: bool)
    requires !v.movement.Dead?
    requires v.status == StaminaStatus.Normal || (v.status == BelowMinimum && v.stamina - delta > 0.0)
    ensures var r := Step(c, v, delta, true, moving);
      && (moving ==> r.movement == Sprinting && r.stamina == v.stamina - delta)
      && (!moving ==> r.movement == MovementStatus.Normal && r.stamina == v.stamina)
      && (v.status == BelowMinimum ==> r.status == BelowMinimum)
  {
  }

  /** BelowMinimum, sprint held, drain reaching zero: exhausted, stamina
      exactly zero, sprint denied. */
  lemma BelowMinimumExhausts(c: StaminaConfig, v: Vitals, delta: real, moving: bool)
    requires !v.movement.Dead? && v.status == BelowMinimum && v.stamina - delta <= 0.0
    ensures Step(c, v, delta, true, moving) == Vitals(0.0, Exhausted, MovementStatus.Normal)
  {
  }

  /** BelowMinimum, sprint released: stamina regenerates (uncapped), and the
      status returns to Normal exactly when it reaches the sprint minimum. */
  lemma BelowMinimumRecovers(c: StaminaConfig, v: Vitals, delta: real, moving: bool)
    requires !v.movement.Dead? && v.status == BelowMinimum
    ensures var r := Step(c, v, delta, false, moving);
      && r.stamina == v.stamina + delta && r.movement == MovementStatus.Normal
      && (r.status == StaminaStatus.Normal <==> v.stamina + delta >= c.minSprintStamina)
      && (r.status == BelowMinimum <==> v.stamina + delta < c.minSprintStamina)
  {
  }

  /** In the two exhaustion regimes the character never sprints. */
  lemma ExhaustionForcesWalking(c: StaminaConfig, v: Vitals, delta: real, sprint: bool, moving: bool)
    requires !v.movement.Dead? && (v.status == Exhausted || v.status == ExhaustedRecovering)
    ensures Step(c, v, delta, sprint, moving).movement == MovementStatus.Normal
  {
  }

  /** Exhausted: a held sprint pins stamina at zero; releasing it starts the
      recovery. */
  lemma ExhaustedPinnedUntilRelease(c: StaminaConfig, v: Vitals, delta: real, sprint: bool, moving: bool)
    requires !v.movement.Dead? && v.status == Exhausted
    ensures var r := Step(c, v, delta, sprint, moving);
      && (sprint ==> r.stamina == 0.0 && r.status == Exhausted)
      && (!sprint ==> r.stamina == v.stamina + delta && r.status == ExhaustedRecovering)
  {
  }

  /** ExhaustedRecovering regenerates whatever the input, and returns to Normal
      exactly when stamina reaches the sprint minimum. */
  lemma RecoveringReturnsToNormal(c: StaminaConfig, v: Vitals, delta: real, sprint: bool, moving: bool)
    requires !v.movement.Dead? && v.status == ExhaustedRecovering
    ensures var r := Step(c, v, delta, sprint, moving);
      && r.stamina == v.stamina + delta
      && (r.status == StaminaStatus.Normal <==> v.stamina + delta >= c.minSprintStamina)
      && (r.status == ExhaustedRecovering <==> v.stamina + delta < c.minSprintStamina)
  {
  }

  /** From a live status, sprinting is only ever the outcome of a held sprint
      while moving, from Normal, or from BelowMinimum when the drain leaves
      stamina above zero. */
  lemma SprintingNeedsIntentAndStamina(c: StaminaConfig, v: Vitals, delta: real, sprint: bool, moving: bool)
    requires v.status.IsLive()
    requires Step(c, v, delta, sprint, moving).movement == Sprinting
    ensures sprint && moving
    ensures v.status == StaminaStatus.Normal || (v.status == BelowMinimum && v.stamina - delta > 0.0)
  {
  }

  /** The transitions a live tick can make: no regime is skipped. */
  predicate Allowed(from: StaminaStatus, to: StaminaStatus)
  {
    from == to ||
    match from
      case Normal => to == BelowMinimum
      case BelowMinimum => to == StaminaStatus.Normal || to == Exhausted
      case Exhausted => to == ExhaustedRecovering
      case ExhaustedRecovering => to == StaminaStatus.Normal
      case DefaultMax => false
  }

  lemma StepTransitionAllowed(c: StaminaConfig, v: Vitals, delta: real, sprint: bool, moving: bool)
    ensures Allowed(v.status, Step(c, v, delta, sprint, moving).status)
  {
  }

  // ---------------------------------------------------------------------------
  // Stamina bounds over many ticks

  /** Constants under which stamina stays in range: no tick drains more than
      `maxDelta`, which is at most the sprint minimum and leaves room for two
      regenerations above it. */
  predicate BoundedDrain(c: StaminaConfig, maxDelta: real)
  {
    0.0 <= maxDelta <= c.minSprintStamina && c.minSprintStamina + 2.0 * maxDelta <= c.maxStamina
  }

  /** Stamina within [0, MaxStamina], with the per-regime facts that keep it
      there. BelowMinimum may sit above the minimum by one refunded drain. */
  predicate InRange(c: StaminaConfig, v: Vitals, maxDelta: real)
  {
    && 0.0 <= v.stamina <= c.maxStamina
    && (v.status == StaminaStatus.Normal ==> c.minSprintStamina <= v.stamina)
    && (v.status == BelowMinimum ==> v.stamina <= c.minSprintStamina + maxDelta)
    && (v.status == Exhausted ==> v.stamina == 0.0)
    && (v.status == ExhaustedRecovering ==> v.stamina <= c.minSprintStamina)
  }

  lemma StepKeepsInRange(c: StaminaConfig, v: Vitals, delta: real, sprint: bool, moving: bool, maxDelta: real)
    requires BoundedDrain(c, maxDelta) && 0.0 <= delta <= maxDelta
    requires InRange(c, v, maxDelta)
    ensures InRange(c, Step(c, v, delta, sprint, moving), maxDelta)
  {
  }

  predicate TicksBounded(c: StaminaConfig, ticks: seq<TickInput>, maxDelta: real)
  {
    forall i :: 0 <= i < |ticks| ==> 0.0 <= Delta(c, ticks[i].dt) <= maxDelta
  }

  /** Started in range, stamina stays within [0, MaxStamina] across any run of
      ticks whose drain is bounded. */
  lemma {:induction false} RunKeepsInRange(c: StaminaConfig, v: Vitals, ticks: seq<TickInput>, maxDelta: real)
    requires BoundedDrain(c, maxDelta) && TicksBounded(c, ticks, maxDelta)
    requires InRange(c, v, maxDelta)
    ensures InRange(c, Run(c, v, ticks), maxDelta)
    ensures 0.0 <= Run(c, v, ticks).stamina <= c.maxStamina
    decreases |ticks|
  {
    if ticks != [] {
      var t := ticks[0];
      StepKeepsInRange(c, v, Delta(c, t.dt), t.sprint, t.moving, maxDelta);
      RunKeepsInRange(c, Step(c, v, Delta(c, t.dt), t.sprint, t.moving), ticks[1..], maxDelta);
    }
  }

  /** Once dead, no sequence of ticks changes anything. */
  lemma {:induction false} RunFrozenWhenDead(c: StaminaConfig, v: Vitals, ticks: seq<TickInput>)
    requires v.movement.Dead?
    ensures Run(c, v, ticks) == v
    decreases |ticks|
  {
    if ticks != [] {
      RunFrozenWhenDead(c, v, ticks[1..]);
    }
  }

  /** The default character meets the bound: with its constants, frames of
      up to two seconds drain at most 50, which satisfies the drain bound, and
      its initial vitals are in range. */
  lemma DefaultsInRange()
    ensures var c := StaminaConfig(150.0, 50.0, 25.0);
      && BoundedDrain(c, 50.0)
      && InRange(c, Vitals(120.0, StaminaStatus.Normal, MovementStatus.Normal), 50.0)
      && (forall dt :: 0.0 <= dt <= 2.0 ==> 0.0 <= Delta(c, dt) <= 50.0)
  {
  }

  /** Hence the default character's stamina stays within [0, 150] for any run
      of frames no longer than two seconds each. */
  lemma DefaultsStayInRange(ticks: seq<TickInput>)
    requires forall i :: 0 <= i < |ticks| ==> 0.0 <= ticks[i].dt <= 2.0
    ensures var r := Run(StaminaConfig(150.0, 50.0, 25.0), Vitals(120.0, StaminaStatus.Normal, MovementStatus.Normal), ticks);
      0.0 <= r.stamina <= 150.0
  {
    var c := StaminaConfig(150.0, 50.0, 25.0);
    DefaultsInRange();
    RunKeepsInRange(c, Vitals(120.0, StaminaStatus.Normal, MovementStatus.Normal), ticks, 50.0);
  }

  /** Without the drain bound stamina leaves its range: a long frame in
      BelowMinimum regenerates past the maximum ... */
  lemma LongFrameOvershootsMaximum()
    ensures var c := StaminaConfig(150.0, 50.0, 25.0);
      var r := Step(c, Vitals(40.0, BelowMinimum, MovementStatus.Normal), Delta(c, 8.0), false, false);
      r.stamina == 240.0 && r.stamina > c.maxStamina
  {
  }

  /** ... and a long sprinting frame in Normal drains below zero. */
  lemma LongFrameDrainsBelowZero()
    ensures var c := StaminaConfig(150.0, 50.0, 25.0);
      var r := Step(c, Vitals(60.0, StaminaStatus.Normal, MovementStatus.Normal), Delta(c, 4.0), true, true);
      r.stamina == -40.0 && r.status == BelowMinimum && r.movement == Sprinting
  {
  }

  /** Holding sprint and moving from the default state with one-second frames:
      95 and 70 (Normal, sprinting), 45 (BelowMinimum), 20, then exhausted at
      exactly zero with sprint denied. */
  lemma SprintUntilExhausted()
    ensures var c := StaminaConfig(150.0, 50.0, 25.0);
      var v := Vitals(120.0, StaminaStatus.Normal, MovementStatus.Normal);
      var tick := TickInput(1.0, true, true);
      && Run(c, v, [tick]) == Vitals(95.0, StaminaStatus.Normal, Sprinting)
      && Run(c, v, [tick, tick, tick]) == Vitals(45.0, BelowMinimum, Sprinting)
      && Run(c, v, [tick, tick, tick, tick, tick]) == Vitals(0.0, Exhausted, MovementStatus.Normal)
  {
    var c := StaminaConfig(150.0, 50.0, 25.0);
    var tick := TickInput(1.0, true, true);
    var v0 := Vitals(120.0, StaminaStatus.Normal, MovementStatus.Normal);
    var v1 := Vitals(95.0, StaminaStatus.Normal, Sprinting);
    var v2 := Vitals(70.0, StaminaStatus.Normal, Sprinting);
    var v3 := Vitals(45.0, BelowMinimum, Sprinting);
    var v4 := Vitals(20.0, BelowMinimum, Sprinting);
    var v5 := Vitals(0.0, Exhausted, MovementStatus.Normal);
    assert Run(c, v5, []) == v5;
    assert Run(c, v4, [tick]) == v5;
    assert Run(c, v3, [tick, tick]) == v5 by { assert [tick, tick][1..] == [tick]; }
    assert Run(c, v3, []) == v3;
    assert Run(c, v2, [tick]) == v3;
    assert Run(c, v1, [tick, tick]) == v3 by { assert [tick, tick][1..] == [tick]; }
    assert Run(c, v2, [tick, tick, tick]) == v5 by { assert [tick, tick, tick][1..] == [tick, tick]; }
    assert Run(c, v1, [tick, tick, tick, tick]) == v5 by { assert [tick, tick, tick, tick][1..] == [tick, tick, tick]; }
    assert Run(c, v1, []) == v1;
    assert Run(c, v0, [tick]) == v1;
    assert Run(c, v0, [tick, tick, tick]) == v3 by { assert [tick, tick, tick][1..] == [tick, tick]; }
    assert Run(c, v0, [tick, tick, tick, tick, tick]) == v5 by {
      assert [tick, tick, tick, tick, tick][1..] == [tick, tick, tick, tick];
    }
  }
}

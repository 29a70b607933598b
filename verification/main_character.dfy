/** The player character AMain: its state fields and the methods that update
    them on ticks and input events. Each method states its new state in terms
    of the old one; the stamina tick is tied to StaminaMachine.Step and the
    target scan to Targeting.SelectClosest, where the properties are proved. */
module MainCharacter {
  import opened MainTypes
  import opened Actors
  import StaminaMachine
  import Targeting

  class Main {
    // Designer-set constants (constructor defaults).
    const maxHealth: real
    const maxStamina: real
    const runningSpeed: real
    const sprintingSpeed: real
    const staminaDrainRate: real
    const minSprintStamina: real
    const interpSpeed: real

    // Collaborators: the player controller (may be absent) and whether an
    // animation instance and a combat montage are available to play on.
    const controller: PlayerController?
    const canPlayMontage: bool

    // Player stats.
    var health: real
    var stamina: real
    var coins: int

    // Status machine.
    var movementStatus: MovementStatus
    var staminaStatus: StaminaStatus
    /** The movement component's MaxWalkSpeed, chosen by SetMovementStatus. */
    var maxWalkSpeed: real

    // Input intents.
    var shiftKeyDown: bool
    var lmbDown: bool
    var movingForward: bool
    var movingRight: bool
    /** How many jumps have been handed to the engine. */
    var jumps: nat

    // Combat.
    var attacking: bool
    var interpToEnemy: bool
    var hasCombatTarget: bool
    var combatTarget: Enemy?
    /** The last montage command issued to the animation service. */
    var lastMontage: Option<Montage>

    // Items.
    var equippedWeapon: Option<WeaponId>
    var activeOverlappingItem: Option<Item>
    /** Weapons destroyed by being replaced in the slot. */
    var destroyedWeapons: set<WeaponId>

    /** The default character, with the controller found at BeginPlay and its
        walk speed set for the Normal status. */
    constructor (controller: PlayerController?, canPlayMontage: bool)
      ensures maxHealth == 100.0 && health == 65.0
      ensures maxStamina == 150.0 && stamina == 120.0 && coins == 0
      ensures runningSpeed == 650.0 && sprintingSpeed == 950.0
      ensures staminaDrainRate == 25.0 && minSprintStamina == 50.0 && interpSpeed == 15.0
      ensures movementStatus == MovementStatus.Normal && staminaStatus == StaminaStatus.Normal
      ensures maxWalkSpeed == runningSpeed
      ensures !shiftKeyDown && !lmbDown && !movingForward && !movingRight && jumps == 0
      ensures !attacking && !interpToEnemy && !hasCombatTarget && combatTarget == null
      ensures equippedWeapon == None && activeOverlappingItem == None && destroyedWeapons == {}
      ensures lastMontage == None
      ensures this.controller == controller && this.canPlayMontage == canPlayMontage
    {
      maxHealth, health := 100.0, 65.0;
      maxStamina, stamina := 150.0, 120.0;
      coins := 0;
      runningSpeed, sprintingSpeed := 650.0, 950.0;
      shiftKeyDown, lmbDown := false, false;
      movementStatus, staminaStatus := MovementStatus.Normal, StaminaStatus.Normal;
      staminaDrainRate, minSprintStamina := 25.0, 50.0;
      interpSpeed := 15.0;
      interpToEnemy, hasCombatTarget := false, false;
      movingForward, movingRight := false, false;
      attacking, jumps := false, 0;
      combatTarget := null;
      equippedWeapon, activeOverlappingItem := None, None;
      destroyedWeapons := {};
      lastMontage := None;
      this.controller := controller;
      this.canPlayMontage := canPlayMontage;
      maxWalkSpeed := 650.0;
    }

    /** The stamina constants, as the status machine reads them. */
    function Config(): StaminaMachine.StaminaConfig
      reads this
    {
      StaminaMachine.StaminaConfig(maxStamina, minSprintStamina, staminaDrainRate)
    }

    /** The fields a tick updates. */
    function CurrentVitals(): StaminaMachine.Vitals
      reads this
    {
      StaminaMachine.Vitals(stamina, staminaStatus, movementStatus)
    }

    /** The walk speed the movement component is given for `status`. */
    function WalkSpeedFor(status: MovementStatus): real
      reads this
    {
      if status == Sprinting then sprintingSpeed else runningSpeed
    }

    predicate Paused()
      reads this, controller
    {
      controller != null && controller.pauseMenuVisible
    }

    // -------------------------------------------------------------------------
    // Inline setters and getters of Main.h

    method SetStaminaStatus(status: StaminaStatus)
      modifies this`staminaStatus
      ensures staminaStatus == status
    {
      staminaStatus := status;
    }

    method SetCombatTarget(target: Enemy?)
      modifies this`combatTarget
      ensures combatTarget == target
    {
      combatTarget := target;
    }

    method SetHasCombatTarget(hasTarget: bool)
      modifies this`hasCombatTarget
      ensures hasCombatTarget == hasTarget
    {
      hasCombatTarget := hasTarget;
    }

    method SetActiveOverlappingItem(item: Option<Item>)
      modifies this`activeOverlappingItem
      ensures activeOverlappingItem == item
    {
      activeOverlappingItem := item;
    }

    method GetEquippedWeapon() returns (weapon: Option<WeaponId>)
      ensures weapon == equippedWeapon
    {
      weapon := equippedWeapon;
    }

    method SetInterToEnemy(interp: bool)
      modifies this`interpToEnemy
      ensures interpToEnemy == interp
    {
      interpToEnemy := interp;
    }

    /** Sets the status and, as a side effect, the walk speed: the sprint speed
        exactly when sprinting, the running speed otherwise. */
    method SetMovementStatus(status: MovementStatus)
      modifies this`movementStatus, this`maxWalkSpeed
      ensures movementStatus == status
      ensures maxWalkSpeed == WalkSpeedFor(status)
    {
      movementStatus := status;
      if movementStatus == Sprinting {
        maxWalkSpeed := sprintingSpeed;
      } else {
        maxWalkSpeed := runningSpeed;
      }
    }

    method ShiftKeyDown()
      modifies this`shiftKeyDown
      ensures shiftKeyDown
    {
      shiftKeyDown := true;
    }

    method ShiftKeyUp()
      modifies this`shiftKeyDown
      ensures !shiftKeyDown
    {
      shiftKeyDown := false;
    }

    // -------------------------------------------------------------------------
    // Health and death

    /** What Die leaves behind: nothing changes for a character already dead;
        otherwise the death montage is issued (when one can play) and the
        status becomes Dead, with the running walk speed. */
    twostate predicate DieApplied()
      reads this
    {
      if old(movementStatus) == Dead then
        movementStatus == Dead && maxWalkSpeed == old(maxWalkSpeed) && lastMontage == old(lastMontage)
      else
        && movementStatus == Dead && maxWalkSpeed == runningSpeed
        && lastMontage == (if canPlayMontage then Some(DeathMontage) else old(lastMontage))
    }

    /** Death happens once: a second call is a no-op. */
    method Die()
      modifies this`movementStatus, this`maxWalkSpeed, this`lastMontage
      ensures DieApplied()
      ensures movementStatus == Dead
    {
      if movementStatus == Dead {
        return;
      }
      if canPlayMontage {
        lastMontage := Some(DeathMontage);
      }
      SetMovementStatus(Dead);
    }

    /** Health always drops by the full amount, with no floor at zero; the
        character dies exactly when the result is at or below zero. */
    method DecrementHealth(amount: real)
      modifies this`health, this`movementStatus, this`maxWalkSpeed, this`lastMontage
      ensures health == old(health) - amount
      ensures health <= 0.0 ==> DieApplied()
      ensures health > 0.0 ==> unchanged(this`movementStatus, this`maxWalkSpeed, this`lastMontage)
    {
      if health - amount <= 0.0 {
        health := health - amount;
        Die();
      } else {
        health := health - amount;
      }
    }

    /** As DecrementHealth, and a lethal hit from an enemy also tells that enemy
        its target is no longer valid. Returns the amount applied. */
    method TakeDamage(amount: real, causer: Enemy?) returns (applied: real)
      modifies this`health, this`movementStatus, this`maxWalkSpeed, this`lastMontage, causer
      ensures applied == amount
      ensures health == old(health) - amount
      ensures health <= 0.0 ==> DieApplied()
      ensures health > 0.0 ==> unchanged(this`movementStatus, this`maxWalkSpeed, this`lastMontage)
      ensures causer != null ==> causer.hasValidTarget == (old(causer.hasValidTarget) && health > 0.0)
    {
      if health - amount <= 0.0 {
        health := health - amount;
        Die();
        if causer != null {
          causer.hasValidTarget := false;
        }
      } else {
        health := health - amount;
      }
      applied := amount;
    }

    method IncrementCoin(amount: int)
      modifies this`coins
      ensures coins == old(coins) + amount
    {
      coins := coins + amount;
    }

    /** Heals, capped at MaxHealth: a character at or below the maximum stays
        at or below it, and one below it gains min(amount, the gap). */
    method IncrementHealth(amount: real)
      modifies this`health
      ensures old(health) + amount > maxHealth ==> health == maxHealth
      ensures old(health) + amount <= maxHealth ==> health == old(health) + amount
      ensures old(health) <= maxHealth ==> health <= maxHealth
    {
      if health + amount > maxHealth {
        health := maxHealth;
      } else {
        health := health + amount;
      }
    }

    // -------------------------------------------------------------------------
    // The per-frame tick

    /** One frame of the stamina and movement machine. A dead character is left
        untouched; otherwise the new stamina and statuses are those of
        StaminaMachine.Step, driven by the drain of this frame, the sprint key
        and whether either movement axis is active. */
    method Tick(dt: real)
      modifies this`stamina, this`staminaStatus, this`movementStatus, this`maxWalkSpeed
      ensures old(movementStatus) == Dead ==> unchanged(this)
      ensures CurrentVitals() == StaminaMachine.Step(Config(), old(CurrentVitals()), StaminaMachine.Delta(Config(), dt),
                                                     shiftKeyDown, movingForward || movingRight)
      ensures maxWalkSpeed == if old(movementStatus) == Dead || old(staminaStatus) == StaminaStatus.DefaultMax
                              then old(maxWalkSpeed) else WalkSpeedFor(movementStatus)
    {
      if movementStatus == Dead {
        return;
      }
      var deltaStamina := staminaDrainRate * dt;
      match staminaStatus
      case Normal => TickNormal(deltaStamina);
      case BelowMinimum => TickBelowMinimum(deltaStamina);
      case Exhausted => TickExhausted(deltaStamina);
      case ExhaustedRecovering => TickExhaustedRecovering(deltaStamina);
      case DefaultMax =>
    }

    /** The contract shared by the four branches of the tick's switch. */
    twostate predicate TickBranchDone(delta: real)
      reads this
    {
      && CurrentVitals() == StaminaMachine.Step(Config(), old(CurrentVitals()), delta, shiftKeyDown, movingForward || movingRight)
      && maxWalkSpeed == WalkSpeedFor(movementStatus)
    }

    method TickNormal(deltaStamina: real)
      requires movementStatus != Dead && staminaStatus == StaminaStatus.Normal
      modifies this`stamina, this`staminaStatus, this`movementStatus, this`maxWalkSpeed
      ensures TickBranchDone(deltaStamina)
    {
      if shiftKeyDown {
        if stamina - deltaStamina <= minSprintStamina {
          SetStaminaStatus(BelowMinimum);
          stamina := stamina - deltaStamina;
        } else {
          stamina := stamina - deltaStamina;
        }
        if movingForward || movingRight {
          SetMovementStatus(Sprinting);
        } else {
          SetMovementStatus(MovementStatus.Normal);
          stamina := stamina + deltaStamina;
        }
      } else {
        if stamina + deltaStamina >= maxStamina {
          stamina := maxStamina;
        } else {
          stamina := stamina + deltaStamina;
        }
        SetMovementStatus(MovementStatus.Normal);
      }
    }

    method TickBelowMinimum(deltaStamina: real)
      requires movementStatus != Dead && staminaStatus == BelowMinimum
      modifies this`stamina, this`staminaStatus, this`movementStatus, this`maxWalkSpeed
      ensures TickBranchDone(deltaStamina)
    {
      if shiftKeyDown {
        if stamina - deltaStamina <= 0.0 {
          SetStaminaStatus(Exhausted);
          stamina := 0.0;
          SetMovementStatus(MovementStatus.Normal);
        } else {
          stamina := stamina - deltaStamina;
          if movingForward || movingRight {
            SetMovementStatus(Sprinting);
          } else {
            SetMovementStatus(MovementStatus.Normal);
            stamina := stamina + deltaStamina;
          }
        }
      } else {
        if stamina + deltaStamina >= minSprintStamina {
          SetStaminaStatus(StaminaStatus.Normal);
          stamina := stamina + deltaStamina;
        } else {
          stamina := stamina + deltaStamina;
        }
        SetMovementStatus(MovementStatus.Normal);
      }
    }

    method TickExhausted(deltaStamina: real)
      requires movementStatus != Dead && staminaStatus == Exhausted
      modifies this`stamina, this`staminaStatus, this`movementStatus, this`maxWalkSpeed
      ensures TickBranchDone(deltaStamina)
    {
      if shiftKeyDown {
        stamina := 0.0;
      } else {
        SetStaminaStatus(ExhaustedRecovering);
        stamina := stamina + deltaStamina;
      }
      SetMovementStatus(MovementStatus.Normal);
    }

    method TickExhaustedRecovering(deltaStamina: real)
      requires movementStatus != Dead && staminaStatus == ExhaustedRecovering
      modifies this`stamina, this`staminaStatus, this`movementStatus, this`maxWalkSpeed
      ensures TickBranchDone(deltaStamina)
    {
      if stamina + deltaStamina >= minSprintStamina {
        SetStaminaStatus(StaminaStatus.Normal);
        stamina := stamina + deltaStamina;
      } else {
        stamina := stamina + deltaStamina;
      }
      SetMovementStatus(MovementStatus.Normal);
    }

    // -------------------------------------------------------------------------
    // Input gating

    /** Movement and camera input is accepted only with a controller, a
        nonzero axis value, no attack in progress, a live character and no
        pause menu. */
    predicate CanMove(value: real)
      reads this, controller
      ensures CanMove(value) <==>
        controller != null && value != 0.0 && !attacking && movementStatus != Dead && !Paused()
    {
      if controller != null then
        value != 0.0 && !attacking && movementStatus != Dead && !controller.pauseMenuVisible
      else
        false
    }

    /** The forward flag records exactly whether this frame's forward input was
        accepted. */
    method MoveForward(value: real)
      modifies this`movingForward
      ensures movingForward == CanMove(value)
    {
      movingForward := false;
      if CanMove(value) {
        movingForward := true;
      }
    }

    /** The right flag records exactly whether this frame's sideways input was
        accepted. */
    method MoveRight(value: real)
      modifies this`movingRight
      ensures movingRight == CanMove(value)
    {
      movingRight := false;
      if CanMove(value) {
        movingRight := true;
      }
    }

    /** A jump reaches the engine unless the game is paused or the character
        is dead. */
    method Jump()
      modifies this`jumps
      ensures jumps == old(jumps) + (if !Paused() && movementStatus != Dead then 1 else 0)
    {
      if controller != null {
        if controller.pauseMenuVisible {
          return;
        }
      }
      if movementStatus != Dead {
        jumps := jumps + 1;
      }
    }

    // -------------------------------------------------------------------------
    // Equip slot and attacks

    /** The slot holds one weapon: the previous one, if any, is destroyed before
        the new one is stored. */
    method SetEquippedWeapon(weapon: Option<WeaponId>)
      modifies this`equippedWeapon, this`destroyedWeapons
      ensures equippedWeapon == weapon
      ensures destroyedWeapons ==
        if old(equippedWeapon).Some? then old(destroyedWeapons) + {old(equippedWeapon).value} else old(destroyedWeapons)
    {
      if equippedWeapon.Some? {
        destroyedWeapons := destroyedWeapons + {equippedWeapon.value};
      }
      equippedWeapon := weapon;
    }

    /** Starts an attack unless one is under way or the character is dead:
        target interpolation is switched on and the montage section drawn as
        `section` (0 or 1) is issued. Otherwise nothing changes. */
    method Attack(section: int)
      requires section == 0 || section == 1
      modifies this`attacking, this`interpToEnemy, this`lastMontage
      ensures old(attacking) || movementStatus == Dead ==> unchanged(this)
      ensures !old(attacking) && movementStatus != Dead ==>
        && attacking && interpToEnemy
        && lastMontage == (if canPlayMontage then Some(AttackMontage(section)) else old(lastMontage))
    {
      if !attacking && movementStatus != Dead {
        attacking := true;
        SetInterToEnemy(true);
        if canPlayMontage {
          lastMontage := Some(AttackMontage(section));
        }
      }
    }

    /** Ends the attack and, while the button is still held, chains straight
        into the next one. */
    method AttackEnd(section: int)
      requires section == 0 || section == 1
      modifies this`attacking, this`interpToEnemy, this`lastMontage
      ensures attacking == interpToEnemy
      ensures attacking <==> lmbDown && movementStatus != Dead
      ensures lastMontage ==
        if attacking && canPlayMontage then Some(AttackMontage(section)) else old(lastMontage)
    {
      attacking := false;
      SetInterToEnemy(false);
      if lmbDown {
        Attack(section);
      }
    }

    /** The primary button: always recorded as held; ignored further when dead
        or paused; equips an overlapping weapon (clearing the overlap), or else
        attacks with the equipped weapon. An overlapping item that is not a
        weapon blocks the attack and is left in place. */
    method LMBDown(section: int)
      requires section == 0 || section == 1
      modifies this`lmbDown, this`equippedWeapon, this`destroyedWeapons, this`activeOverlappingItem
      modifies this`attacking, this`interpToEnemy, this`lastMontage
      ensures lmbDown
      ensures old(movementStatus) == Dead || Paused() ==>
        unchanged(this`equippedWeapon, this`destroyedWeapons, this`activeOverlappingItem) &&
        unchanged(this`attacking, this`interpToEnemy, this`lastMontage)
      ensures movementStatus != Dead && !Paused() && old(activeOverlappingItem).Some? ==>
        && unchanged(this`attacking, this`interpToEnemy, this`lastMontage)
        && (old(activeOverlappingItem).value.WeaponItem? ==>
              && equippedWeapon == Some(old(activeOverlappingItem).value.weapon)
              && activeOverlappingItem == None
              && destroyedWeapons ==
                   if old(equippedWeapon).Some? then old(destroyedWeapons) + {old(equippedWeapon).value}
                   else old(destroyedWeapons))
        && (old(activeOverlappingItem).value.OtherItem? ==>
              unchanged(this`equippedWeapon, this`destroyedWeapons, this`activeOverlappingItem))
      ensures movementStatus != Dead && !Paused() && old(activeOverlappingItem).None? ==>
        && unchanged(this`equippedWeapon, this`destroyedWeapons, this`activeOverlappingItem)
        && (old(equippedWeapon).Some? && !old(attacking) ==>
              attacking && interpToEnemy &&
              lastMontage == (if canPlayMontage then Some(AttackMontage(section)) else old(lastMontage)))
        && (old(equippedWeapon).None? || old(attacking) ==>
              unchanged(this`attacking, this`interpToEnemy, this`lastMontage))
    {
      lmbDown := true;
      if movementStatus == Dead {
        return;
      }
      if controller != null {
        if controller.pauseMenuVisible {
          return;
        }
      }
      if activeOverlappingItem.Some? {
        match activeOverlappingItem.value
        case WeaponItem(weapon) =>
          SetEquippedWeapon(Some(weapon));
          SetActiveOverlappingItem(None);
        case OtherItem(_) =>
      } else if equippedWeapon.Some? {
        Attack(section);
      }
    }

    method LMBUp()
      modifies this`lmbDown
      ensures !lmbDown
    {
      lmbDown := false;
    }

    // -------------------------------------------------------------------------
    // Combat target

    /** Picks the nearest overlapping enemy (the earliest among equally near
        ones) as the combat target and shows its health bar. With nothing
        overlapping the health bar is hidden and the target is kept. When the
        first overlapping actor is not an enemy nothing changes. */
    method UpdateCombatTarget(overlaps: seq<Overlap>)
      modifies this`combatTarget, this`hasCombatTarget, controller
      ensures controller != null ==> controller.pauseMenuVisible == old(controller.pauseMenuVisible)
      ensures |overlaps| == 0 ==>
        && unchanged(this`combatTarget, this`hasCombatTarget)
        && (controller != null ==> !controller.enemyHealthBarVisible)
      ensures |overlaps| > 0 && overlaps[0].actor == null ==>
        unchanged(this`combatTarget, this`hasCombatTarget) && (controller != null ==> unchanged(controller))
      ensures Targeting.IsEnemy(overlaps, 0) ==>
        && hasCombatTarget
        && (exists i :: Targeting.IsClosest(overlaps, i) && combatTarget == overlaps[i].actor)
        && (controller != null ==> controller.enemyHealthBarVisible)
    {
      var selection := Targeting.SelectClosest(overlaps);
      match selection
      case NoCandidates =>
        if controller != null {
          controller.enemyHealthBarVisible := false;
        }
      case FirstNotEnemy =>
      case Closest(i) =>
        if controller != null {
          controller.enemyHealthBarVisible := true;
        }
        SetCombatTarget(overlaps[i].actor);
        hasCombatTarget := true;
    }
  }
}

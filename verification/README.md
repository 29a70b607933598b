# Player character decision logic (AMain)

A Dafny model of the decision logic of `AMain`, the player character of a
third-person action game built on a commercial engine. The model covers:

- the per-frame stamina/movement state machine (`Tick`), with its four stamina
  regimes (Normal, BelowMinimum, Exhausted, ExhaustedRecovering) and three
  movement statuses (Normal, Sprinting, Dead), and the walk-speed side effect
  of `SetMovementStatus`;
- the health and death lifecycle (`DecrementHealth`, `TakeDamage`,
  `IncrementHealth`, `IncrementCoin`, `Die`);
- the attack sequencer (`Attack`, `AttackEnd`), with the random montage
  section passed in as a parameter in {0, 1};
- input gating (`CanMove`, `MoveForwrd`, `MoveRight`, `Jump`, `LMBDown`,
  `LMBUp`, `ShiftKeyDown`, `ShiftKeyUp`) and the single weapon slot
  (`SetEquippedWeapon`);
- nearest-enemy selection (`UpdateCombatTarget`).

Layout, one module per file:

- `main_types.dfy` (`MainTypes`): the two status enums of `Main.h` (with their
  `DefaultMax` count sentinels), `Option`, weapon ids, overlapping items and
  montage commands.
- `actors.dfy` (`Actors`): the collaborators the character writes to — an
  enemy's target-validity flag and the player controller's pause-menu and
  health-bar flags — and the overlap records the target scan reads.
- `stamina_machine.dfy` (`StaminaMachine`): the tick's switch as a pure
  function `Step` on (stamina, stamina status, movement status), `Run` over a
  sequence of ticks, and the lemmas about them.
- `targeting.dfy` (`Targeting`): the scan loop of `UpdateCombatTarget` as a
  method proved to return the earliest nearest enemy.
- `main_character.dfy` (`MainCharacter`): the class `Main` with the
  character's fields and one method per source operation. Each method states
  its whole new state in terms of the old one (field-level `modifies` clauses
  say what it leaves alone). `Tick` is proved equal to `StaminaMachine.Step`.
  Method names follow the source, including `SetInterToEnemy`; only
  `MoveForwrd` is spelt `MoveForward`.

Stamina, health and speeds are Dafny `real`s. The drain `StaminaDrainRate *
DeltaTime` is computed once per tick and used both to drain and to
regenerate. When sprint is held but the character is not moving, the source
subtracts the drain and adds it back. `Tick` does exactly that, and `Step`
says "stamina unchanged"; the two agree because reals are exact.

Some behaviours of the code are easy to mistake for something cleaner. The
model keeps them as the code has them:

- Stamina is not kept in [0, MaxStamina] for every frame time. In
  BelowMinimum and ExhaustedRecovering, regeneration is not capped at the
  maximum. A sprinting drain in Normal is not floored at zero.
  `StaminaMachine.RunKeepsInRange` proves the bound only for frames whose
  drain is at most `MinSprintStamina` and at most half the gap
  `MaxStamina - MinSprintStamina`. The default constants allow frames of up to
  2 seconds. `LongFrameOvershootsMaximum` and `LongFrameDrainsBelowZero` show
  what happens with longer frames.
- BelowMinimum does not imply stamina at or under `MinSprintStamina`. A
  stationary character with sprint held enters BelowMinimum with its drain
  refunded.
- The sprint trace from the default state with one-second frames is 95, 70,
  45 (BelowMinimum), 20, then 0 (Exhausted). See
  `StaminaMachine.SprintUntilExhausted`.
- Damage to a character that is already dead still lowers its health. Only
  `Die` is guarded. Health is never clamped at zero.
- An empty overlap list hides the enemy health bar but keeps the current
  `CombatTarget` and `bHasCombatTarget`.
- `SetEquippedWeapon` accepts an empty slot value: it destroys the old weapon
  and leaves the slot empty.

## Model

| member | source | states |
|---|---|---|
| `MainTypes.LiveMovementStatuses` | Source/FirstProject/Main.h:9-18 | The live movement statuses are exactly Normal, Sprinting and Dead; `DefaultMax` is only the count sentinel. |
| `MainTypes.LiveStaminaStatuses` | Source/FirstProject/Main.h:20-29 | The live stamina statuses are exactly Normal, BelowMinimum, Exhausted and ExhaustedRecovering. |
| `MainTypes.AttackMontage` | Source/FirstProject/Main.cpp:533-545 | Section 0 plays "Attack_1" and section 1 "Attack_2" (each iff), the rate is 2.2 for section 0 and 1.8 for section 1, and an attack montage is never the death montage. |
| `StaminaMachine.Step` | Source/FirstProject/Main.cpp:232-333 | The state after one tick of the switch. A tick never makes a character Dead nor revives one, and a live stamina status stays live. |
| `StaminaMachine.Run` | Source/FirstProject/Main.cpp:223-333 | The state after successive calls of `Tick`. However many ticks run, they neither kill nor revive the character, and a live stamina status stays live. |
| `StaminaMachine.ReleaseNeverDrains` | Source/FirstProject/Main.cpp:257-330 | In every live regime, a tick with sprint released never lowers a stamina that is within the maximum. |
| `StaminaMachine.DeadTickIsFrozen` | Source/FirstProject/Main.cpp:227-230 | A tick of a dead character changes no stamina or status. |
| `StaminaMachine.NormalRegenerates` | Source/FirstProject/Main.cpp:257-268 | Normal regime, sprint released: stamina becomes exactly MaxStamina when `Stamina + DeltaStamina` reaches it (a stamina above the maximum is brought back down) and `Stamina + DeltaStamina` otherwise, so never above MaxStamina, and never lower than before from a stamina within range; the status stays Normal and the character walks. |
| `StaminaMachine.NormalSprintThreshold` | Source/FirstProject/Main.cpp:236-246 | Normal regime, sprint held: the status becomes BelowMinimum exactly when `Stamina - DeltaStamina <= MinSprintStamina`, and stays Normal otherwise. |
| `StaminaMachine.SprintDrainsOnlyWhenMoving` | Source/FirstProject/Main.cpp:236-291 | Sprint held in Normal, or in BelowMinimum without exhausting: a moving character ends Sprinting with stamina reduced by the drain, and a stationary one walks with its stamina unchanged. A BelowMinimum status stays BelowMinimum. |
| `StaminaMachine.BelowMinimumExhausts` | Source/FirstProject/Main.cpp:271-278 | BelowMinimum, sprint held, drain reaching zero: the state becomes Exhausted with stamina exactly 0 and movement Normal. |
| `StaminaMachine.BelowMinimumRecovers` | Source/FirstProject/Main.cpp:293-305 | BelowMinimum, sprint released: stamina rises by the drain, uncapped; the status returns to Normal exactly when the result is at least MinSprintStamina; movement is Normal. |
| `StaminaMachine.ExhaustionForcesWalking` | Source/FirstProject/Main.cpp:307-330 | In Exhausted and ExhaustedRecovering the movement status always ends Normal. |
| `StaminaMachine.ExhaustedPinnedUntilRelease` | Source/FirstProject/Main.cpp:307-318 | Exhausted: a held sprint keeps stamina at 0 and the status Exhausted; releasing it regenerates and moves to ExhaustedRecovering. |
| `StaminaMachine.RecoveringReturnsToNormal` | Source/FirstProject/Main.cpp:319-330 | ExhaustedRecovering regenerates whatever the input, and returns to Normal exactly when stamina reaches MinSprintStamina. |
| `StaminaMachine.SprintingNeedsIntentAndStamina` | Source/FirstProject/Main.cpp:233-333 | From a live stamina status, a tick ends Sprinting only if sprint is held and the character moves, in Normal or in BelowMinimum with stamina left after the drain. |
| `StaminaMachine.StepTransitionAllowed` | Source/FirstProject/Main.cpp:233-333 | A tick moves the stamina status at most one regime along Normal → BelowMinimum → Exhausted → ExhaustedRecovering → Normal, or from BelowMinimum back to Normal. |
| `StaminaMachine.StepKeepsInRange` | Source/FirstProject/Main.cpp:232-333 | With a bounded drain, one tick keeps stamina in [0, MaxStamina] together with the per-regime facts (Normal at or above the minimum, Exhausted at 0, …). |
| `StaminaMachine.RunKeepsInRange` | Source/FirstProject/Main.cpp:223-333 | With every tick's drain bounded, stamina stays in [0, MaxStamina] over any sequence of ticks (induction on the ticks). |
| `StaminaMachine.RunFrozenWhenDead` | Source/FirstProject/Main.cpp:227-230 | Once dead, no sequence of ticks changes stamina or status (induction on the ticks). |
| `StaminaMachine.LongFrameOvershootsMaximum` | Source/FirstProject/Main.cpp:293-305 | Without the drain bound, an 8-second frame in BelowMinimum regenerates stamina to 240, above MaxStamina 150. |
| `StaminaMachine.LongFrameDrainsBelowZero` | Source/FirstProject/Main.cpp:236-250 | Without the drain bound, a 4-second sprinting frame in Normal drains stamina from 60 to -40. |
| `StaminaMachine.DefaultsInRange` | Source/FirstProject/Main.cpp:67-82 | The constructor's constants (150, 50, 25) meet the drain bound for frames of up to 2 seconds, and its initial vitals (120, Normal, Normal) are in range. |
| `StaminaMachine.DefaultsStayInRange` | Source/FirstProject/Main.cpp:67-82 | From the constructor's defaults, stamina stays within [0, 150] over any sequence of ticks no longer than 2 seconds each. |
| `StaminaMachine.SprintUntilExhausted` | Source/FirstProject/Main.cpp:232-290 | From the defaults (120 of 150, minimum 50, rate 25), sprinting while moving with one-second frames gives 95 (Normal, Sprinting), 45 after three frames (BelowMinimum), and after five frames 0 (Exhausted, movement Normal). |
| `Targeting.SelectClosest` | Source/FirstProject/Main.cpp:592-619 | Returns "no candidates" iff the overlap list is empty, "first is not an enemy" iff the first actor fails the enemy cast, and otherwise an enemy at minimal distance with every earlier enemy strictly farther: the strict `<` sends ties to the first one met. |
| `Targeting.ClosestIsUnique` | Source/FirstProject/Main.cpp:613-617 | The earliest nearest enemy is unique, so the scan's result is determined by the distances. |
| `MainCharacter.Main.constructor` | Source/FirstProject/Main.cpp:65-90 | The constructor defaults: health 65 of 100, stamina 120 of 150, 0 coins, running speed 650, sprinting speed 950, drain rate 25, sprint minimum 50, interpolation speed 15, both statuses Normal, and every flag false. |
| `MainCharacter.Main.SetStaminaStatus` | Source/FirstProject/Main.h:61 | Sets `StaminaStatus` and nothing else. |
| `MainCharacter.Main.SetHasCombatTarget` | Source/FirstProject/Main.h:76 | Sets `bHasCombatTarget` and nothing else. |
| `MainCharacter.Main.SetCombatTarget` | Source/FirstProject/Main.h:81 | Sets `CombatTarget` and nothing else. |
| `MainCharacter.Main.GetEquippedWeapon` | Source/FirstProject/Main.h:223 | Returns the equipped weapon, changing nothing. |
| `MainCharacter.Main.SetActiveOverlappingItem` | Source/FirstProject/Main.h:225 | Sets `ActiveOverlappingItem` and nothing else. |
| `MainCharacter.Main.SetInterToEnemy` | Source/FirstProject/Main.cpp:102-105 | Sets `bInterpToEnemy` and nothing else. |
| `MainCharacter.Main.SetMovementStatus` | Source/FirstProject/Main.cpp:107-114 | Sets the movement status; the max walk speed becomes SprintingSpeed iff the status is Sprinting, RunningSpeed otherwise. |
| `MainCharacter.Main.ShiftKeyDown` | Source/FirstProject/Main.cpp:116-119 | Sets the sprint intent and nothing else. |
| `MainCharacter.Main.ShiftKeyUp` | Source/FirstProject/Main.cpp:121-124 | Clears the sprint intent and nothing else. |
| `MainCharacter.Main.DecrementHealth` | Source/FirstProject/Main.cpp:126-137 | Health always drops by the full amount, with no clamp; Die runs iff the result is at most 0; otherwise status, walk speed and montage are unchanged. |
| `MainCharacter.Main.TakeDamage` | Source/FirstProject/Main.cpp:139-162 | As DecrementHealth (also while already dead); returns the amount; a lethal hit clears the causing enemy's `bHasValidTarget`, and a non-lethal one leaves it alone. |
| `MainCharacter.Main.IncrementCoin` | Source/FirstProject/Main.cpp:164-167 | Adds exactly the amount to the coins. |
| `MainCharacter.Main.IncrementHealth` | Source/FirstProject/Main.cpp:169-179 | Heals by the amount, capped at MaxHealth; health at or below MaxHealth stays at or below it. |
| `MainCharacter.Main.Die` | Source/FirstProject/Main.cpp:181-192 | Idempotent death: a no-op when already Dead; otherwise plays the death montage (when one can play) and sets the status to Dead with the running walk speed. |
| `MainCharacter.Main.Tick` | Source/FirstProject/Main.cpp:223-333 | A dead character is left entirely unchanged; otherwise stamina and both statuses become `StaminaMachine.Step` of the old ones, with drain `StaminaDrainRate * DeltaTime`, the sprint key and "moving forward or right"; the walk speed follows the new movement status. |
| `MainCharacter.Main.TickNormal` | Source/FirstProject/Main.cpp:235-269 | The Normal branch of the switch, proved equal to `Step`, including the drain-and-refund of a stationary sprint. |
| `MainCharacter.Main.TickBelowMinimum` | Source/FirstProject/Main.cpp:270-306 | The BelowMinimum branch of the switch, proved equal to `Step`. |
| `MainCharacter.Main.TickExhausted` | Source/FirstProject/Main.cpp:307-318 | The Exhausted branch of the switch, proved equal to `Step`. |
| `MainCharacter.Main.TickExhaustedRecovering` | Source/FirstProject/Main.cpp:319-330 | The ExhaustedRecovering branch of the switch, proved equal to `Step`. |
| `MainCharacter.Main.CanMove` | Source/FirstProject/Main.cpp:390-402 | True iff a controller exists, the value is nonzero, the character is not attacking, not Dead, and the pause menu is not showing. |
| `MainCharacter.Main.MoveForward` | Source/FirstProject/Main.cpp:404-419 | The forward-moving flag becomes exactly `CanMove(value)`. |
| `MainCharacter.Main.MoveRight` | Source/FirstProject/Main.cpp:421-436 | The right-moving flag becomes exactly `CanMove(value)`. |
| `MainCharacter.Main.LMBDown` | Source/FirstProject/Main.cpp:464-488 | Always records the button as held. When Dead or paused, nothing else changes. An overlapping weapon is equipped (the old one destroyed) and the overlap cleared. An overlapping non-weapon item blocks the attack. With no overlap and a weapon equipped, it attacks. |
| `MainCharacter.Main.LMBUp` | Source/FirstProject/Main.cpp:490-495 | Records the button as released and nothing else. |
| `MainCharacter.Main.SetEquippedWeapon` | Source/FirstProject/Main.cpp:512-520 | The previously equipped weapon, if any, joins the destroyed set; the slot then holds exactly the new weapon. |
| `MainCharacter.Main.Attack` | Source/FirstProject/Main.cpp:522-548 | Not attacking and not Dead: sets `bAttacking` and `bInterpToEnemy` and issues montage section 0 as (2.2, "Attack_1") or 1 as (1.8, "Attack_2"). Otherwise nothing changes. |
| `MainCharacter.Main.AttackEnd` | Source/FirstProject/Main.cpp:550-558 | Clears both attack flags, then re-enters Attack iff the button is still held. The character is attacking afterwards iff the button is held and it is not Dead. |
| `MainCharacter.Main.Jump` | Source/FirstProject/Main.cpp:574-585 | Each call hands one jump to the engine iff the game is not paused and the character is not Dead: the jump count rises by exactly one then, and is unchanged otherwise. |
| `MainCharacter.Main.UpdateCombatTarget` | Source/FirstProject/Main.cpp:587-628 | Empty overlap list: hides the health bar and keeps the target. First actor not an enemy: nothing changes. Otherwise: the target becomes an earliest nearest enemy, `bHasCombatTarget` is set and the health bar shown. |

## Left out

- Camera boom, follow camera, capsule and movement-component settings in the
  constructor, and the input bindings of `SetupPlayerInputComponent`: engine
  configuration with no decisions.
- Rotation toward the combat target in `Tick` (`RInterpTo`,
  `GetLockAtRotationYaw`) and the copy of the target's location to the
  controller: engine vector math and a UI copy.
- `Turn`, `LookUp`, `TurnAtRate`, `LookUpAtRate`: camera input handed to the
  engine. The movement vectors that `MoveForwrd` and `MoveRight` hand to the
  engine are not modelled either. Only their moving flags are.
- `ESCDown` and `ESCUp`: they toggle the pause menu inside the player
  controller, whose code is not part of this model. The pause-menu flag is an
  input of the model.
- Animation playback: montage commands are recorded only as the last
  (rate, section) issued. `PlaySwingSound`, `DeathEnd` and
  `ShowPickUpLocations` are not modelled.
- `FMath::RandRange(0,1)`: the drawn section is a parameter of `Attack`,
  `AttackEnd` and `LMBDown`.
- `AWeapon::Equip`: its body is not part of this model. On the character's
  side it is modelled as `SetEquippedWeapon` with the overlapping weapon. The
  weapon's own state (PickUp/Equipped), sounds and instigator are not
  modelled. Weapons are abstract ids, and destruction is membership in a set.
- `BeginPlay`, `SaveGame`, `LoadGame`, `LoadGameNoSwitch`, `SwitchLevel`: save
  slot I/O, actor spawning and level streaming. From `BeginPlay`, only two
  facts are kept. The controller it finds is a constructor parameter. The walk
  speed set by its `SetMovementStatus(Normal)` is the constructor's initial
  walk speed. Note that the save writes MaxStamina into the MaxHealth field,
  and the load reads MaxStamina back from it.
- `UpdateCombatTarget`: the overlap query and the distance computation are
  engine calls. The model receives the overlapping actors with their
  distances as input.
- `ACharacter::Jump` and `StopJumping`: the engine's jump physics. Each jump
  `Jump` hands to the engine is counted in the character's `jumps` field.
- Designer-edited values: `MaxHealth`, `MaxStamina`, `StaminaDrainRate`,
  `MinSprintStamina`, `RunningSpeed` and `SprintingSpeed` are `const` fields
  fixed at the constructor defaults, so a character carrying other values (set
  in the editor, or the maxima `LoadGame` writes) is not constructed. The
  method contracts are stated in terms of these fields, not their values.
- Float rounding: all quantities are reals, so the drain-and-refund of a
  stationary sprint is exact in the model.
- IncrementCoin: does not model 32-bit wrap-around of `Coins`; the count is an
  unbounded integer.
- Weapon.h, FloorSwitch.h, FloatingPlatform.cpp and
  ColliderMovementComponent.cpp: declarations, Blueprint events, platform
  interpolation and physics calls, with no character decision logic.

/** Value types of the player character (AMain): the two status enums of
    Main.h, the optional slot type, and the records used for montage commands
    and overlapping items. */
module MainTypes {

  datatype Option<T> = None | Some(value: T)

  /** EMovementStatus. `DefaultMax` is the enum's count sentinel, not a state. */
  datatype MovementStatus = Normal | Sprinting | Dead | DefaultMax {
    predicate IsLive() { !DefaultMax? }
  }

  /** EStaminaStatus. `DefaultMax` is the enum's count sentinel, not a state. */
  datatype StaminaStatus = Normal | BelowMinimum | Exhausted | ExhaustedRecovering | DefaultMax {
    predicate IsLive() { !DefaultMax? }
  }

  /** The live movement statuses are exactly Normal, Sprinting and Dead. */
  lemma LiveMovementStatuses(s: MovementStatus)
    ensures s.IsLive() <==> s == MovementStatus.Normal || s == Sprinting || s == Dead
  {
  }

  /** The live stamina statuses are exactly the four regimes of the stamina machine. */
  lemma LiveStaminaStatuses(s: StaminaStatus)
    ensures s.IsLive() <==>
      s == StaminaStatus.Normal || s == BelowMinimum || s == Exhausted || s == ExhaustedRecovering
  {
  }

  /** A weapon is identified by an abstract id; its own state lives outside this model. */
  type WeaponId = nat

  /** The item the character currently overlaps: a weapon, or some other pickup. */
  datatype Item = WeaponItem(weapon: WeaponId) | OtherItem(id: nat)

  /** A command to the animation service: play the combat montage at `rate`
      and jump to the named section. */
  datatype Montage = Montage(rate: real, section: string)

  const DeathMontage := Montage(1.0, "Death")

  /** The two attack variants, indexed by the uniformly drawn section number. */
  function AttackMontage(section: int): (m: Montage)
    requires section == 0 || section == 1
    ensures m.section == "Attack_1" <==> section == 0
    ensures m.section == "Attack_2" <==> section == 1
    ensures section == 0 ==> m.rate == 2.2
    ensures section == 1 ==> m.rate == 1.8
    ensures m != DeathMontage
  {
    if section == 0 then Montage(2.2, "Attack_1") else Montage(1.8, "Attack_2")
  }
}

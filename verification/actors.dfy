/** The collaborators the player character reads and writes, reduced to the
    fields the character touches. Their own behaviour (Enemy.cpp,
    MainPlayerController.cpp) is not part of this model. */
module Actors {

  /** A hostile actor. The character only ever clears its target-validity flag. */
  class Enemy {
    var hasValidTarget: bool
  }

  /** The player controller: whether the pause menu is up, and whether the
      UI currently shows the enemy health bar. */
  class PlayerController {
    var pauseMenuVisible: bool
    var enemyHealthBarVisible: bool
  }

  /** One actor found overlapping the detection volume, with its distance from
      the character. `actor` is null when the actor is not an enemy (the cast
      to AEnemy fails). */
  datatype Overlap = Overlap(actor: Enemy?, distance: real)
}

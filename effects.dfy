/** What the game logic asks of the engine, recorded as abstract events. */
module Effects {

  datatype Effect =
    | Impulse(dx: real, dy: real)   // applyImpulse on the player's physics body
    | GameOverLabel(text: string)   // a label node added at the player's position
}

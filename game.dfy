/** The game session record and the grid dimensions (models/Game/index.ts). */
module Games {

  const GameRows: int := 15
  const GameColumns: int := 25

  /** Lifecycle of a game session. */
  datatype GameState = Waiting | Starting | Started

  datatype Game = Game(id: string, leader: string, state: GameState)
}

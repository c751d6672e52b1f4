/** Integer constants of the game (Config.py) and the fixed board geometry (Board.py). */
module Config {
  /** Centre code written into the middle slot of a wall whose endpoints share a row. */
  const HORIZONTAL: int := 1
  /** Centre code written into the middle slot of a wall whose endpoints share a column. */
  const VERTICAL: int := 2

  /** Pawn-grid edge. Board.py and main.py hard-code row 16, so the size is fixed at 9. */
  const SIZE: int := 9
  /** Side of the board matrix: pawn cells plus the wall slots between them. */
  const DIM: int := 2 * SIZE - 1

  /** Objective rows: player 1 starts at the bottom and races to row 0, player 2 the reverse. */
  const P1_GOAL: int := 0
  const P2_GOAL: int := DIM - 1

  /** Walls each player starts with. */
  const START_WALLS: int := 10

  /** The search parameters the board gives its computer player (AIPlayer defaults). */
  const SEARCH_DEPTH: nat := 1
  const WALL_WEIGHT: real := 1.5
}

/** The usual optional value. */
module Wrappers {
  datatype Option<+T> = None | Some(value: T)
}

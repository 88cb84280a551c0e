/**
 * The record that the tateti app keeps for one match and stores, field by
 * field, in its realtime database under the match's key.
 *
 * The Kotlin classes `Partida` and `Movimiento` (package `modelo`) are not
 * part of this model; their fields are the ones ActividadPartida.kt reads
 * and writes: `id`, `retador`, `oponente`, `movimientos`, `ganador`, and a
 * move destructured as `(posicion, jugador)`.
 */
module Types {

  datatype Option<T> = None | Some(value: T)

  /** A user id as the authentication service hands it out (`uid`). */
  type PlayerId = string

  /** `Movimiento(posicion, jugador)`: one ply, the cell (1..9) and who played it. */
  datatype Move = Move(position: int, player: PlayerId)

  /**
   * `Partida`. `challenger` is `retador`, `opponent` is `oponente`,
   * `moves` is `movimientos` (in play order), `winner` is `ganador`.
   * Every field the Kotlin class leaves nullable is an Option here.
   */
  datatype Match = Match(
    id: Option<string>,
    challenger: Option<PlayerId>,
    opponent: Option<PlayerId>,
    moves: seq<Move>,
    winner: Option<PlayerId>)

  /** The text a board button shows: "X", "O" or nothing. */
  datatype Mark = Blank | X | O

  /** A cell number as the board buttons are tagged: "1" .. "9". */
  predicate IsCell(p: int) {
    1 <= p <= 9
  }

  /** Every move names a cell of the board. */
  ghost predicate CellsInRange(moves: seq<Move>) {
    forall i :: 0 <= i < |moves| ==> IsCell(moves[i].position)
  }

  /** No cell is played twice (the board disables a button once it is played). */
  ghost predicate DistinctPositions(moves: seq<Move>) {
    forall i, j :: 0 <= i < j < |moves| ==> moves[i].position != moves[j].position
  }

  /** `p` has not been played yet. */
  predicate Free(moves: seq<Move>, p: int) {
    forall i :: 0 <= i < |moves| ==> moves[i].position != p
  }

  /**
   * What every match the activity holds satisfies: it was created with one
   * move (so the turn check can read the last move), its moves name board
   * cells, and no cell was played twice.
   */
  ghost predicate WellFormed(m: Match) {
    && |m.moves| >= 1
    && CellsInRange(m.moves)
    && DistinctPositions(m.moves)
  }
}

# Tateti match engine in Dafny

A model of the match screen of an Android tic-tac-toe ("tateti") app,
`ActividadPartida`, and proofs about it. The screen keeps one match
(`Partida`): its id, the challenger (`retador`, who created it and plays
"X"), the opponent (`oponente`, "O"), the moves in play order
(`movimientos`, each a cell 1..9 and the player's id) and the winner
(`ganador`). Tapping a board button plays a move when it is the caller's turn
(the last move is somebody else's) and nobody has won. With no match yet, the
tap creates one. Opening a match that has no opponent makes the caller its
opponent. Each time the match changes, the screen writes each move's mark on
its button and tries the eight lines of the board in a fixed order. The
first line whose three cells show the same mark names the winner: the
challenger for "X", the opponent for "O". With no such line, nine moves are a
draw.

Files:

- `types.dfy` (module `Types`): the match record, moves, marks and the
  well-formedness of a held match.
- `grid.dfy` (module `Grid`): painting the board from the moves, the eight
  lines, the first won line, and counting lemmas (at most nine moves; nine
  moves exactly when the board is full).
- `rules.dfy` (module `Rules`): the engine as functions on the match (turn,
  tap, join, winner) and the lemmas about them.
- `activity.dfy` (module `Activity`): class `MatchActivity`, whose methods
  update the match field in place as the Kotlin methods do. The constructor,
  `Play`, `CreateMatch`, `SameMarks`, `HasTateti`, `TryLinesFrom`,
  `CheckWinner` and `LoadBoard` are proved to follow the functions of `Rules`.
  `JoinAsOpponent`, `UpdateMatch` and `SetWinner` state the single field they
  write. `JoinAsOpponent` (sumarmeComoOponente) overwrites the opponent
  unconditionally; the guard for a missing opponent is only in the
  constructor (onCreate). The file ends with a whole match played on one
  screen.

The code does not guard against the following; the model does the same:

- A tap is not checked against occupied cells. Only the disabled button stops
  it, so a free cell is a precondition of `Play`.
- Joining does not check that the caller is not the challenger
  (`Rules.ChallengerCanJoinOwnMatch`).
- The turn check does not ask whether the caller takes part in the match. A
  third user's moves are painted "O", and a line of them names the opponent as
  winner.
- The winner is found from the button texts that the repaint writes from the
  moves. The model passes that painted board on as a value.

## Model

| member | source | states |
|---|---|---|
| Grid.MarkOf | app/src/main/java/ar/com/develup/tateti/actividades/ActividadPartida.kt:88-92 | a played cell is never blank; it shows "X" exactly when the move's player is the challenger (`retador`), "O" for anybody else |
| Grid.CellAt | app/src/main/java/ar/com/develup/tateti/actividades/ActividadPartida.kt:86-92 | a cell is blank exactly when no move was played on it; otherwise it shows the mark of the last move played on it: "X" when that move's player is the challenger, "O" otherwise |
| Grid.PaintBoard | app/src/main/java/ar/com/develup/tateti/actividades/ActividadPartida.kt:85-94 | writing each move's mark onto blank buttons, in play order, yields the board `Board(moves, challenger)` derived from the moves |
| Grid.CellOfMove | app/src/main/java/ar/com/develup/tateti/actividades/ActividadPartida.kt:86-92 | with no cell played twice, a played cell shows "X" exactly when the move on it is the challenger's, "O" otherwise |
| Grid.Line | app/src/main/java/ar/com/develup/tateti/actividades/ActividadPartida.kt:123-127 | each of the eight lines is a triple of board cells |
| Grid.Tateti | app/src/main/java/ar/com/develup/tateti/actividades/ActividadPartida.kt:123-127 | a tateti is a won line among the eight, which holds exactly when the search in hayTaTeTi's order finds a first won line |
| Grid.FirstWonLine | app/src/main/java/ar/com/develup/tateti/actividades/ActividadPartida.kt:123-127 | no line counts exactly when none of the remaining lines is won; otherwise the result is a won line and every line before it is not won (the short-circuit order) |
| Grid.LineStep | app/src/main/java/ar/com/develup/tateti/actividades/ActividadPartida.kt:129-142 | on a line's three cells the sonIguales loop decides exactly that the three are marked and equal; an unwon line passes the search to the next |
| Grid.AtMostNineMoves | app/src/main/java/ar/com/develup/tateti/actividades/ActividadPartida.kt:86-93 | moves on distinct board cells number at most nine |
| Grid.FullBoardIffNineMoves | app/src/main/java/ar/com/develup/tateti/actividades/ActividadPartida.kt:119-121 | for moves on distinct cells, every cell is marked exactly when there are nine moves, which is the count finalizo checks |
| Rules.IsMyTurn | app/src/main/java/ar/com/develup/tateti/actividades/ActividadPartida.kt:187-192 | with no match anybody may move; on a held match the player who made the last move waits and anybody else may move |
| Rules.Finished | app/src/main/java/ar/com/develup/tateti/actividades/ActividadPartida.kt:119-121 | only a held match is over by count, and for a well-formed match nine moves means exactly that every cell of the board is marked |
| Rules.OutcomeOf | app/src/main/java/ar/com/develup/tateti/actividades/ActividadPartida.kt:98-117 | the outcome is a win exactly when a line is won; a well-formed match goes on exactly while no line is won and some cell is blank |
| Rules.Created | app/src/main/java/ar/com/develup/tateti/actividades/ActividadPartida.kt:203-214 | a created match has the caller as challenger, the caller's move as its only move, the store's key as id, and no opponent or winner |
| Rules.AfterPlay | app/src/main/java/ar/com/develup/tateti/actividades/ActividadPartida.kt:166-192 | a tap with no match creates one. On a held match only the move list can change. It grows by exactly `Move(pos, caller)` at the end when the last move is someone else's and there is no winner. Otherwise nothing changes |
| Rules.Opened | app/src/main/java/ar/com/develup/tateti/actividades/ActividadPartida.kt:28-31 | opening a match sets its opponent to the caller only if there was none; everything else is kept |
| Rules.Claimed | app/src/main/java/ar/com/develup/tateti/actividades/ActividadPartida.kt:148-158 | only the winner changes. An "X" line names the challenger and an "O" line the opponent. Nothing changes without a match |
| Rules.Settled | app/src/main/java/ar/com/develup/tateti/actividades/ActividadPartida.kt:123-158 | the outcome check changes at most the winner, and nothing at all when no line is won |
| Rules.PlayKeepsWellFormed | app/src/main/java/ar/com/develup/tateti/actividades/ActividadPartida.kt:166-201 | a tap on a free cell keeps the match well formed: at least one move, cells 1..9, no cell played twice |
| Rules.DrawIsFullBoardWithoutLine | app/src/main/java/ar/com/develup/tateti/actividades/ActividadPartida.kt:98-121 | a draw is reported exactly when every cell is marked and no line is won; a full board with a won line is a win |
| Rules.CreatedAlternates | app/src/main/java/ar/com/develup/tateti/actividades/ActividadPartida.kt:203-207 | a created match starts the alternation: its one move is the challenger's |
| Rules.PlayKeepsAlternation | app/src/main/java/ar/com/develup/tateti/actividades/ActividadPartida.kt:166-192 | when only the two participants tap, the challenger keeps exactly the moves at even indices (1st, 3rd, 5th ply) and every move stays a participant's |
| Rules.TurnOfParticipants | app/src/main/java/ar/com/develup/tateti/actividades/ActividadPartida.kt:187-192 | for two distinct participants it is the challenger's turn after an even number of moves and the opponent's after an odd number |
| Rules.TakingTurnsAppendsEveryMove | app/src/main/java/ar/com/develup/tateti/actividades/ActividadPartida.kt:72-96 | each tap follows the reload that the previous move causes on the tapping player's screen; on an unwon match, taps by alternating players are all accepted as long as no line is won before any of them: exactly their moves are appended, in order, and nothing else changes |
| Rules.TapAfterLineIsIgnored | app/src/main/java/ar/com/develup/tateti/actividades/ActividadPartida.kt:72-96 | when only the two distinct participants played and a line is won, the reload that delivers the last move names a winner, after which any tap leaves the match unchanged |
| Rules.NoTwoMovesInARow | app/src/main/java/ar/com/develup/tateti/actividades/ActividadPartida.kt:166-192 | after a tap that changed the match, including one that created it, it is not the tapping player's turn |
| Rules.MovesOnWonLine | app/src/main/java/ar/com/develup/tateti/actividades/ActividadPartida.kt:129-142 | every move on a won line left that line's mark |
| Rules.WinnerOwnsTheLine | app/src/main/java/ar/com/develup/tateti/actividades/ActividadPartida.kt:143-158 | when only the two distinct participants played, the reload names a winner, and it is the player who made every move on the first won line |
| Rules.TopRowWinsForChallenger | app/src/main/java/ar/com/develup/tateti/actividades/ActividadPartida.kt:123-158 | the challenger's moves on cells 1, 2 and 3 make the outcome a win and the challenger the winner, whatever else was played |
| Rules.SecondJoinKeepsFirstOpponent | app/src/main/java/ar/com/develup/tateti/actividades/ActividadPartida.kt:28-31 | after a first player joined, a second opening keeps the first opponent |
| Rules.ChallengerCanJoinOwnMatch | app/src/main/java/ar/com/develup/tateti/actividades/ActividadPartida.kt:28-31 | the challenger opening their own match before anyone joined becomes its opponent too |
| Rules.SettleIdempotent | app/src/main/java/ar/com/develup/tateti/actividades/ActividadPartida.kt:85-96 | a second reload of the same match names the same winner as the first |
| Activity.MatchActivity.constructor | app/src/main/java/ar/com/develup/tateti/actividades/ActividadPartida.kt:22-33 | the screen holds the handed-over match, opened as `Rules.Opened` says, or no match |
| Activity.MatchActivity.JoinAsOpponent | app/src/main/java/ar/com/develup/tateti/actividades/ActividadPartida.kt:216-223 | the held match gets the caller as opponent and keeps every other field |
| Activity.MatchActivity.Play | app/src/main/java/ar/com/develup/tateti/actividades/ActividadPartida.kt:166-185 | the new match is `Rules.AfterPlay` of the old one, and the match stays well formed |
| Activity.MatchActivity.CreateMatch | app/src/main/java/ar/com/develup/tateti/actividades/ActividadPartida.kt:203-214 | the screen holds `Rules.Created(caller, pos, key)` |
| Activity.MatchActivity.UpdateMatch | app/src/main/java/ar/com/develup/tateti/actividades/ActividadPartida.kt:194-201 | the caller's move is appended at the end of the held match's moves; nothing else changes |
| Activity.MatchActivity.SetWinner | app/src/main/java/ar/com/develup/tateti/actividades/ActividadPartida.kt:157-164 | the held match's winner becomes the given one; nothing else changes |
| Activity.MatchActivity.SameMarks | app/src/main/java/ar/com/develup/tateti/actividades/ActividadPartida.kt:129-155 | the result is whether every listed cell after the first shows the first cell's mark. If so, that mark's player is named winner as `Rules.Claimed` says |
| Activity.MatchActivity.HasTateti | app/src/main/java/ar/com/develup/tateti/actividades/ActividadPartida.kt:123-127 | the result is whether one of the eight lines is won, and the match becomes `Rules.Settled`: the first won line names the winner |
| Activity.MatchActivity.TryLinesFrom | app/src/main/java/ar/com/develup/tateti/actividades/ActividadPartida.kt:123-127 | trying the lines from line `k` on reports whether line `k` or a later line is won, stops at the first won one, and leaves the match with that line's winner (`Rules.SettledFrom`) |
| Activity.MatchActivity.CheckWinner | app/src/main/java/ar/com/develup/tateti/actividades/ActividadPartida.kt:98-117 | a tateti is reported before anything else. Without one, nine moves are a draw. The winner is set as `Rules.Settled` says |
| Activity.MatchActivity.LoadBoard | app/src/main/java/ar/com/develup/tateti/actividades/ActividadPartida.kt:85-96 | repainting and checking leaves the match as `Rules.Settle` says and reports `Rules.OutcomeOf` |
| Activity.TopRowMatch | app/src/main/java/ar/com/develup/tateti/actividades/ActividadPartida.kt:166-214 | a match where the challenger plays 1, 2, 3 and the opponent 5, 6 ends with five moves, reported won, with the challenger as winner |

## Left out

- Realtime database access is not modelled: `push`/`setValue`/`child` writes, the value listener and its removal in `onPause`, snapshot deserialisation and key assignment. Writes are the field updates they mirror, and the key a new match receives is a parameter. A reload after a change is a call to `LoadBoard`. Store failures are not modelled.
- The user id lookup through the authentication service is not modelled; the caller's id is a parameter of each method.
- Android UI is not modelled: button wiring, text colours, the dialogs and the snackbar, and disabling played buttons. Also left out are the texts `jugar` writes on the tapped button before the update; the next repaint writes the same marks.
- Two devices writing the same match at once are not modelled. The model is one sequence of calls on one screen.
- `Partida` and `Movimiento` are not part of this model. Their fields are inferred from their use in the screen.
- ActividadInicial.kt, ActividadRegistracion.kt and ActividadPartidas.kt (login, registration, the match list) are not part of this model.
- Activity.MatchActivity.Play: requires the tapped cell to be free and in 1..9. The disabled buttons guarantee this once the first reload has painted the board; the source itself does not check it. A tap between opening a match and the store's first delivery, which the source would record on an occupied cell, is not modelled.
- Activity.MatchActivity.UpdateMatch: has the same free-cell and 1..9 requires as `Play`, its only caller. The disabled buttons guarantee it only after the first reload; a tap on an occupied cell before the store's first delivery is not modelled.
- Activity.MatchActivity.LoadBoard: requires a held match, since the source dereferences it unguarded.

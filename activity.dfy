/**
 * ActividadPartida, the screen that plays one match. It holds the match in
 * a field and updates it in place as the player taps buttons, as the
 * opponent joins, and as the outcome check names a winner.
 *
 * The caller's user id and the key the store assigns to a new match are
 * parameters. Writes to the store are the field updates they mirror. The
 * board buttons are the board value that PaintBoard produces from the
 * moves.
 */
module Activity {
  import opened Types
  import opened Grid
  import opened Rules

  class MatchActivity {
    /** `partida`: the match on screen, absent until one is created or opened. */
    var game: Option<Match>

    ghost predicate Valid()
      reads this
    {
      game.Some? ==> WellFormed(game.value)
    }

    /**
     * onCreate. `extra` is the match handed over by the match list, if
     * any; when it has no opponent the caller joins it as opponent.
     */
    constructor (extra: Option<Match>, caller: PlayerId)
      requires extra.Some? ==> WellFormed(extra.value)
      ensures Valid()
      ensures game == if extra.Some? then Some(Opened(extra.value, caller)) else None
    {
      game := extra;
      new;
      if game.Some? && game.value.opponent.None? {
        JoinAsOpponent(caller);
      }
    }

    /** sumarmeComoOponente: the caller is written as opponent, whatever was there. */
    method JoinAsOpponent(caller: PlayerId)
      requires Valid()
      modifies this
      ensures Valid()
      ensures game == if old(game).Some? then Some(old(game).value.(opponent := Some(caller))) else None
    {
      if game.Some? {
        game := Some(game.value.(opponent := Some(caller)));
      }
    }

    /**
     * jugar: the caller taps the button of cell `pos`. A tap out of turn,
     * or on a match that has a winner, changes nothing.
     */
    method Play(caller: PlayerId, pos: int, key: string)
      requires Valid() && IsCell(pos)
      requires game.Some? ==> Free(game.value.moves, pos)
      modifies this
      ensures Valid()
      ensures game == AfterPlay(old(game), caller, pos, key)
    {
      if IsMyTurn(game, caller) {
        if game.None? {
          CreateMatch(caller, pos, key);
        } else if game.value.winner.None? {
          UpdateMatch(caller, pos);
        }
      }
    }

    /** crearPartida: a new match with the caller as challenger and their move as the first. */
    method CreateMatch(caller: PlayerId, pos: int, key: string)
      requires IsCell(pos)
      modifies this
      ensures Valid()
      ensures game == Some(Created(caller, pos, key))
    {
      game := Some(Match(None, None, None, [], None));
      game := Some(game.value.(challenger := Some(caller)));
      game := Some(game.value.(moves := game.value.moves + [Move(pos, caller)]));
      game := Some(game.value.(id := Some(key)));
    }

    /** actualizarPartida: the caller's move is appended to the match's moves. */
    method UpdateMatch(caller: PlayerId, pos: int)
      requires Valid() && IsCell(pos)
      requires game.Some? ==> Free(game.value.moves, pos)
      modifies this
      ensures Valid()
      ensures game == if old(game).Some?
        then Some(old(game).value.(moves := old(game).value.moves + [Move(pos, caller)]))
        else None
    {
      if game.Some? {
        PlayKeepsWellFormed(game, caller, pos, "");
        game := Some(game.value.(moves := game.value.moves + [Move(pos, caller)]));
      }
    }

    /** establecerGanador: the match's winner becomes `winner`. */
    method SetWinner(winner: Option<PlayerId>)
      requires Valid()
      modifies this
      ensures Valid()
      ensures game == if old(game).Some? then Some(old(game).value.(winner := winner)) else None
    {
      if game.Some? {
        game := Some(game.value.(winner := winner));
      }
    }

    /**
     * sonIguales: whether the listed cells all show the first cell's mark,
     * and if they do, that mark's player is named winner.
     */
    method SameMarks(board: seq<Mark>, cells: seq<int>) returns (same: bool)
      requires Valid() && |board| == 9
      requires forall i :: 0 <= i < |cells| ==> 1 <= cells[i] <= 9
      modifies this
      ensures Valid()
      ensures same == AllSame(board, cells)
      ensures game == if same && |cells| > 0 then Claimed(old(game), board[cells[0] - 1]) else old(game)
    {
      same := true;
      var value: Option<Mark> := None;
      var i := 0;
      while i < |cells| && same
        invariant 0 <= i <= |cells|
        invariant value == if i == 0 then None else Some(board[cells[0] - 1])
        invariant same <==> forall j :: 1 <= j < i ==>
          board[cells[j] - 1] != Blank && board[cells[j] - 1] == board[cells[0] - 1]
      {
        var mark := board[cells[i] - 1];
        if value.None? {
          value := Some(mark);
        } else {
          same := mark != Blank && value.value == mark;
        }
        i := i + 1;
      }
      if same {
        if value == Some(X) {
          SetWinner(if game.Some? then game.value.challenger else None);
        } else if value == Some(O) {
          SetWinner(if game.Some? then game.value.opponent else None);
        }
      }
    }

    /**
     * hayTaTeTi: the eight lines are tried in order until one is won; the
     * first won line names the winner.
     */
    method HasTateti(board: seq<Mark>) returns (won: bool)
      requires Valid() && |board| == 9
      modifies this
      ensures Valid()
      ensures won == Tateti(board)
      ensures game == Settled(old(game), board)
    {
      won := TryLinesFrom(board, 0);
    }

    /**
     * The `||` chain of hayTaTeTi from line `k` on: sonIguales on line `k`,
     * and the lines after it only when that one is not won.
     */
    method TryLinesFrom(board: seq<Mark>, k: nat) returns (won: bool)
      requires Valid() && |board| == 9 && k <= 8
      modifies this
      decreases 8 - k
      ensures Valid()
      ensures won == FirstWonLine(board, k).Some?
      ensures game == SettledFrom(old(game), board, k)
    {
      if k == 8 {
        won := false;
      } else {
        LineStep(board, k);
        won := SameMarks(board, Line(k));
        if !won {
          won := TryLinesFrom(board, k + 1);
        }
      }
    }

    /**
     * comprobarGanador: a tateti is reported first; otherwise a match with
     * nine moves is a draw.
     */
    method CheckWinner(board: seq<Mark>) returns (outcome: Outcome)
      requires Valid() && |board| == 9
      modifies this
      ensures Valid()
      ensures game == Settled(old(game), board)
      ensures outcome == if Tateti(board) then Won else if Finished(old(game)) then Draw else Ongoing
    {
      var won := HasTateti(board);
      if won {
        outcome := Won;
      } else if Finished(game) {
        outcome := Draw;
      } else {
        outcome := Ongoing;
      }
    }

    /**
     * cargarVistasPartidaIniciada: the buttons are painted from the moves
     * and the outcome is checked.
     */
    method LoadBoard() returns (outcome: Outcome)
      requires Valid() && game.Some?
      modifies this
      ensures Valid()
      ensures game == Some(Settle(old(game).value))
      ensures outcome == OutcomeOf(old(game).value)
    {
      var board := PaintBoard(game.value.moves, game.value.challenger);
      outcome := CheckWinner(board);
    }
  }

  /**
   * One match from start to end on one screen: `a` taps cell 1 and creates
   * the match, `b` joins and taps 5, `a` taps 2, `b` taps 6, `a` taps 3. The
   * call to JoinAsOpponent stands in for `b` opening the match on their own
   * screen (onCreate), with the store carrying the new opponent over to
   * this one. The reload that follows (the store may deliver the writes as
   * one change) names `a` winner, with five moves on the board.
   */
  method TopRowMatch(a: PlayerId, b: PlayerId, key: string) returns (winner: Option<PlayerId>, moves: nat, outcome: Outcome)
    requires a != b
    ensures winner == Some(a) && moves == 5 && outcome == Won
  {
    var screen := new MatchActivity(None, a);
    screen.Play(a, 1, key);
    screen.JoinAsOpponent(b);
    screen.Play(b, 5, key);
    screen.Play(a, 2, key);
    screen.Play(b, 6, key);
    screen.Play(a, 3, key);
    ghost var m := screen.game.value;
    assert m.moves == [Move(1, a), Move(5, b), Move(2, a), Move(6, b), Move(3, a)];
    TopRowWinsForChallenger(m, 0, 2, 4);
    outcome := screen.LoadBoard();
    winner := screen.game.value.winner;
    moves := |screen.game.value.moves|;
  }
}

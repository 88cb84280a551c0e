/**
 * The 3x3 board of a match as the activity paints it from the move list,
 * and the eight lines that decide a tateti.
 *
 * A board is a sequence of nine marks; cell `p` (1..9, the button tag) is
 * at index `p - 1`.
 */
module Grid {
  import opened Types

  /** The mark a move leaves: "X" when it is the challenger's, "O" for anybody else. */
  function MarkOf(player: PlayerId, challenger: Option<PlayerId>): (mark: Mark)
    ensures mark != Blank
    ensures mark == X <==> Some(player) == challenger
  {
    if Some(player) == challenger then X else O
  }

  /**
   * The mark cell `p` shows after the moves are painted in play order: the
   * mark of the LAST move on `p`, and blank when `p` was never played.
   */
  function CellAt(moves: seq<Move>, challenger: Option<PlayerId>, p: int): (mark: Mark)
    ensures mark == Blank <==> Free(moves, p)
    ensures mark != Blank ==>
      exists i :: 0 <= i < |moves| && moves[i].position == p &&
        mark == MarkOf(moves[i].player, challenger) &&
        forall j :: i < j < |moves| ==> moves[j].position != p
  {
    if moves == [] then Blank
    else
      var n := |moves| - 1;
      if moves[n].position == p then MarkOf(moves[n].player, challenger)
      else
        var mark := CellAt(moves[..n], challenger, p);
        assert forall i :: 0 <= i < n ==> moves[..n][i] == moves[i];
        mark
  }

  /** The whole board painted from the moves. */
  function Board(moves: seq<Move>, challenger: Option<PlayerId>): seq<Mark> {
    seq(9, i => CellAt(moves, challenger, i + 1))
  }

  /**
   * cargarVistasPartidaIniciada: starting from blank buttons, write each
   * move's mark onto the button of its cell, in play order.
   */
  method PaintBoard(moves: seq<Move>, challenger: Option<PlayerId>) returns (board: seq<Mark>)
    requires CellsInRange(moves)
    ensures board == Board(moves, challenger)
  {
    board := [Blank, Blank, Blank, Blank, Blank, Blank, Blank, Blank, Blank];
    assert board == Board(moves[..0], challenger);
    for k := 0 to |moves|
      invariant |board| == 9
      invariant board == Board(moves[..k], challenger)
    {
      var move := moves[k];
      board := board[move.position - 1 := MarkOf(move.player, challenger)];
      assert moves[..k + 1][..k] == moves[..k];
      assert board == Board(moves[..k + 1], challenger);
    }
    assert moves[..|moves|] == moves;
  }

  /**
   * The eight lines hayTaTeTi checks, in its order: the rows 1-2-3, 4-5-6,
   * 7-8-9, the columns 1-4-7, 2-5-8, 3-6-9, the diagonals 1-5-9, 3-5-7.
   */
  function Line(k: nat): (cells: seq<int>)
    requires k < 8
    ensures |cells| == 3
    ensures forall i :: 0 <= i < 3 ==> 1 <= cells[i] <= 9
  {
    if k == 0 then [1, 2, 3]
    else if k == 1 then [4, 5, 6]
    else if k == 2 then [7, 8, 9]
    else if k == 3 then [1, 4, 7]
    else if k == 4 then [2, 5, 8]
    else if k == 5 then [3, 6, 9]
    else if k == 6 then [1, 5, 9]
    else [3, 5, 7]
  }

  /** A line is won when its three cells are marked, all with the same mark. */
  predicate LineWon(board: seq<Mark>, cells: seq<int>)
    requires |board| == 9 && |cells| == 3
    requires forall i :: 0 <= i < 3 ==> 1 <= cells[i] <= 9
  {
    && board[cells[0] - 1] != Blank
    && board[cells[1] - 1] == board[cells[0] - 1]
    && board[cells[2] - 1] == board[cells[0] - 1]
  }

  /**
   * What the loop of sonIguales decides for any list of cells: every cell
   * after the first is marked, with the first cell's mark.
   */
  predicate AllSame(board: seq<Mark>, cells: seq<int>)
    requires |board| == 9
    requires forall i :: 0 <= i < |cells| ==> 1 <= cells[i] <= 9
  {
    forall i :: 1 <= i < |cells| ==>
      board[cells[i] - 1] != Blank && board[cells[i] - 1] == board[cells[0] - 1]
  }

  /**
   * hayTaTeTi: one of the eight lines is won, which is exactly when the
   * search in hayTaTeTi's order finds a first won line.
   */
  predicate Tateti(board: seq<Mark>)
    requires |board| == 9
    ensures Tateti(board) <==> FirstWonLine(board, 0).Some?
  {
    exists k :: 0 <= k < 8 && LineWon(board, Line(k))
  }

  /**
   * The first won line at or after line `k`, in hayTaTeTi's order; the
   * short-circuiting `||` stops there.
   */
  function FirstWonLine(board: seq<Mark>, k: nat): (r: Option<nat>)
    requires |board| == 9 && k <= 8
    decreases 8 - k
    ensures r.None? <==> forall j :: k <= j < 8 ==> !LineWon(board, Line(j))
    ensures r.Some? ==>
      && k <= r.value < 8
      && LineWon(board, Line(r.value))
      && forall j :: k <= j < r.value ==> !LineWon(board, Line(j))
  {
    if k == 8 then None
    else if LineWon(board, Line(k)) then Some(k)
    else FirstWonLine(board, k + 1)
  }

  /**
   * Trying line `k`: the loop of sonIguales on its three cells decides
   * exactly whether it is won. The second ensures only unfolds one step of
   * FirstWonLine, for the method that walks the lines.
   */
  lemma LineStep(board: seq<Mark>, k: nat)
    requires |board| == 9 && k < 8
    ensures AllSame(board, Line(k)) <==> LineWon(board, Line(k))
    ensures FirstWonLine(board, k) ==
      if LineWon(board, Line(k)) then Some(k) else FirstWonLine(board, k + 1)
  {
    var cells := Line(k);
    if AllSame(board, cells) {
      assert board[cells[1] - 1] != Blank && board[cells[1] - 1] == board[cells[0] - 1];
      assert board[cells[2] - 1] == board[cells[0] - 1];
    }
  }

  /** The set of cells that have been played. */
  function Positions(moves: seq<Move>): set<int> {
    set i | 0 <= i < |moves| :: moves[i].position
  }

  /** A set of integers drawn from `lo .. hi - 1` has at most `hi - lo` elements. */
  lemma {:induction false} BoundedSetSize(s: set<int>, lo: int, hi: int)
    requires forall x :: x in s ==> lo <= x < hi
    ensures |s| <= if hi <= lo then 0 else hi - lo
    decreases hi - lo
  {
    if hi <= lo {
      assert s == {};
    } else {
      BoundedSetSize(s - {hi - 1}, lo, hi - 1);
    }
  }

  /** A set of integers holding all of `lo .. hi - 1` has at least `hi - lo` elements. */
  lemma {:induction false} CoveringSetSize(s: set<int>, lo: int, hi: int)
    requires forall x :: lo <= x < hi ==> x in s
    ensures |s| >= hi - lo
    decreases hi - lo
  {
    if lo < hi {
      CoveringSetSize(s - {hi - 1}, lo, hi - 1);
    }
  }

  /** With no cell played twice, there are as many played cells as moves. */
  lemma {:induction false} PositionsCount(moves: seq<Move>)
    requires DistinctPositions(moves)
    ensures |Positions(moves)| == |moves|
  {
    if moves != [] {
      var n := |moves| - 1;
      var prefix := moves[..n];
      assert DistinctPositions(prefix) by {
        forall i, j | 0 <= i < j < |prefix|
          ensures prefix[i].position != prefix[j].position
        {
          assert prefix[i] == moves[i] && prefix[j] == moves[j];
        }
      }
      PositionsCount(prefix);
      assert Positions(moves) == Positions(prefix) + {moves[n].position} by {
        forall p | p in Positions(moves) ensures p in Positions(prefix) + {moves[n].position} {
          var i :| 0 <= i < |moves| && moves[i].position == p;
          if i < n { assert prefix[i] == moves[i]; }
        }
        forall p | p in Positions(prefix) ensures p in Positions(moves) {
          var i :| 0 <= i < |prefix| && prefix[i].position == p;
          assert moves[i] == prefix[i];
        }
      }
      assert forall i :: 0 <= i < |prefix| ==> prefix[i].position != moves[n].position by {
        forall i | 0 <= i < |prefix| ensures prefix[i].position != moves[n].position {
          assert prefix[i] == moves[i];
        }
      }
    }
  }

  /** A match whose moves are on distinct board cells has at most nine moves. */
  lemma AtMostNineMoves(moves: seq<Move>)
    requires CellsInRange(moves) && DistinctPositions(moves)
    ensures |moves| <= 9
  {
    PositionsCount(moves);
    BoundedSetSize(Positions(moves), 1, 10);
  }

  /**
   * For moves on distinct board cells, every cell is marked exactly when
   * nine moves have been made; this is what lets finalizo count moves
   * instead of looking at the board.
   */
  lemma FullBoardIffNineMoves(moves: seq<Move>, challenger: Option<PlayerId>)
    ensures CellsInRange(moves) && DistinctPositions(moves) ==>
      ((forall i :: 0 <= i < 9 ==> Board(moves, challenger)[i] != Blank) <==> |moves| == 9)
  {
    var board := Board(moves, challenger);
    if !(CellsInRange(moves) && DistinctPositions(moves)) {
      return;
    }
    PositionsCount(moves);
    AtMostNineMoves(moves);
    if forall i :: 0 <= i < 9 ==> board[i] != Blank {
      forall p | 1 <= p < 10 ensures p in Positions(moves) {
        assert board[p - 1] != Blank;
        assert !Free(moves, p);
      }
      CoveringSetSize(Positions(moves), 1, 10);
    }
    if |moves| == 9 {
      forall i | 0 <= i < 9 ensures board[i] != Blank {
        if board[i] == Blank {
          assert i + 1 !in Positions(moves);
          BoundedSetSize(Positions(moves) + {i + 1}, 1, 10);
          assert false;
        }
      }
    }
  }

  /**
   * With no cell played twice, a played cell shows the mark of the move
   * played on it: "X" when that move is the challenger's, "O" otherwise.
   */
  lemma CellOfMove(moves: seq<Move>, challenger: Option<PlayerId>, i: int)
    requires DistinctPositions(moves) && 0 <= i < |moves|
    ensures CellAt(moves, challenger, moves[i].position) == MarkOf(moves[i].player, challenger)
  {
    var p := moves[i].position;
    assert !Free(moves, p);
    var mark := CellAt(moves, challenger, p);
  }
}

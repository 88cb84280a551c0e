/**
 * The match engine of ActividadPartida.kt as functions on the match
 * record: whose turn it is, what a tap on a board button does to the
 * match, joining as opponent, and how the outcome check sets the winner.
 * Most methods of the class in module Activity are proved to follow these
 * functions; JoinAsOpponent, UpdateMatch and SetWinner state the single
 * field they write.
 */
module Rules {
  import opened Types
  import opened Grid

  /**
   * esMiTurno: with no match yet it is always the caller's turn; otherwise
   * it is their turn exactly when the last recorded move is somebody else's.
   * The source reads the last move unguarded, so a held match has a move.
   */
  function IsMyTurn(m: Option<Match>, caller: PlayerId): (mine: bool)
    requires m.Some? ==> |m.value.moves| > 0
    // anybody may start a match
    ensures m.None? ==> mine
    // whoever made the last move waits, anybody else may move
    ensures m.Some? ==> (mine <==> m.value.moves[|m.value.moves| - 1].player != caller)
  {
    m.None? || m.value.moves[|m.value.moves| - 1].player != caller
  }

  /**
   * finalizo: a match is over by count when it holds nine moves; for a
   * well-formed match that is exactly when every cell of its board is marked.
   */
  function Finished(m: Option<Match>): (over: bool)
    ensures over ==> m.Some?
    ensures m.Some? && WellFormed(m.value) ==>
      (over <==> forall i :: 0 <= i < 9 ==> Board(m.value.moves, m.value.challenger)[i] != Blank)
  {
    m.Some? && (FullBoardIffNineMoves(m.value.moves, m.value.challenger); |m.value.moves| == 9)
  }

  /**
   * crearPartida: a new `Partida()` whose challenger is the caller, with
   * the caller's move as its first move, and the key the store assigned
   * on `push` as its id.
   */
  function Created(caller: PlayerId, pos: int, key: string): (r: Match)
    ensures r.challenger == Some(caller) && r.opponent.None? && r.winner.None?
    ensures r.moves == [Move(pos, caller)] && r.id == Some(key)
  {
    var empty := Match(None, None, None, [], None);
    var withChallenger := empty.(challenger := Some(caller));
    var withMove := withChallenger.(moves := withChallenger.moves + [Move(pos, caller)]);
    withMove.(id := Some(key))
  }

  /**
   * jugar: the match after the caller taps the button of cell `pos`.
   * `key` is the id the store would assign if a match is created.
   */
  function AfterPlay(m: Option<Match>, caller: PlayerId, pos: int, key: string): (r: Option<Match>)
    requires m.Some? ==> |m.value.moves| > 0
    // with no match, the tap creates one with the caller as challenger
    ensures m.None? ==>
      r.Some? && r.value.challenger == Some(caller) && r.value.moves == [Move(pos, caller)] &&
      r.value.opponent.None? && r.value.winner.None?
    // on a held match only the move list can change ...
    ensures m.Some? ==> r.Some? && r.value == m.value.(moves := r.value.moves)
    // ... and it grows by the caller's move exactly when it is their turn and nobody has won
    ensures m.Some? && IsMyTurn(m, caller) && m.value.winner.None? ==>
      r.value.moves == m.value.moves + [Move(pos, caller)]
    ensures m.Some? && !(IsMyTurn(m, caller) && m.value.winner.None?) ==> r == m
  {
    if !IsMyTurn(m, caller) then m
    else if m.None? then Some(Created(caller, pos, key))
    else if m.value.winner.None? then Some(m.value.(moves := m.value.moves + [Move(pos, caller)]))
    else m
  }

  /**
   * onCreate opening a match handed over by the match list: when it has no
   * opponent the caller joins as opponent (sumarmeComoOponente), otherwise
   * the match is kept as it is.
   */
  function Opened(m: Match, caller: PlayerId): (r: Match)
    ensures r.opponent == if m.opponent.None? then Some(caller) else m.opponent
    ensures r.(opponent := m.opponent) == m
  {
    if m.opponent.None? then m.(opponent := Some(caller)) else m
  }

  /**
   * The part of sonIguales that runs once a line is found: "X" names the
   * challenger as winner, "O" the opponent (establecerGanador). Nothing
   * happens without a match or for a blank mark.
   */
  function Claimed(m: Option<Match>, mark: Mark): (r: Option<Match>)
    ensures r.Some? <==> m.Some?
    ensures r.Some? ==> r.value == m.value.(winner := r.value.winner)
    ensures mark == X && m.Some? ==> r.value.winner == m.value.challenger
    ensures mark == O && m.Some? ==> r.value.winner == m.value.opponent
    ensures mark == Blank ==> r == m
  {
    match m
    case None => None
    case Some(p) =>
      if mark == X then Some(p.(winner := p.challenger))
      else if mark == O then Some(p.(winner := p.opponent))
      else m
  }

  /**
   * hayTaTeTi's effect on the match: the first won line, in its order,
   * names the winner by its mark; with no won line the match is kept.
   */
  function Settled(m: Option<Match>, board: seq<Mark>): (r: Option<Match>)
    requires |board| == 9
    ensures r.Some? <==> m.Some?
    ensures r.Some? ==> r.value == m.value.(winner := r.value.winner)
    ensures !Tateti(board) ==> r == m
  {
    SettledFrom(m, board, 0)
  }

  /** The same, trying only the lines from line `k` on. */
  function SettledFrom(m: Option<Match>, board: seq<Mark>, k: nat): Option<Match>
    requires |board| == 9 && k <= 8
  {
    match FirstWonLine(board, k)
    case None => m
    case Some(j) => Claimed(m, board[Line(j)[0] - 1])
  }

  /** The match after a reload repaints the board from it and checks it. */
  function Settle(m: Match): Match {
    Settled(Some(m), Board(m.moves, m.challenger)).value
  }

  /** What comprobarGanador reports: a tateti, else a draw when finalizo, else nothing. */
  datatype Outcome = Won | Draw | Ongoing

  function OutcomeOf(m: Match): (r: Outcome)
    ensures r == Won <==> Tateti(Board(m.moves, m.challenger))
    // a well-formed match goes on exactly while no line is won and a cell is blank
    ensures WellFormed(m) ==> (r == Ongoing <==>
      !Tateti(Board(m.moves, m.challenger)) &&
      exists i :: 0 <= i < 9 && Board(m.moves, m.challenger)[i] == Blank)
  {
    if Tateti(Board(m.moves, m.challenger)) then Won
    else if Finished(Some(m)) then Draw
    else Ongoing
  }

  /**
   * A tap is only possible on a free button with a board tag, so a match
   * that satisfies WellFormed still does after any tap.
   */
  lemma PlayKeepsWellFormed(m: Option<Match>, caller: PlayerId, pos: int, key: string)
    requires m.Some? ==> WellFormed(m.value) && Free(m.value.moves, pos)
    requires IsCell(pos)
    ensures WellFormed(AfterPlay(m, caller, pos, key).value)
  {
    var r := AfterPlay(m, caller, pos, key).value;
    if m.Some? && r.moves != m.value.moves {
      var n := |m.value.moves|;
      assert r.moves[n].position == pos;
      forall i, j | 0 <= i < j < |r.moves|
        ensures r.moves[i].position != r.moves[j].position
      {
        if j < n { assert r.moves[i] == m.value.moves[i] && r.moves[j] == m.value.moves[j]; }
        else { assert r.moves[i] == m.value.moves[i]; }
      }
    }
  }

  /**
   * A draw is reported exactly when every cell is marked and no line is
   * won: a full board with a winning line is a win.
   */
  lemma DrawIsFullBoardWithoutLine(m: Match)
    requires WellFormed(m)
    ensures OutcomeOf(m) == Draw <==>
      (forall i :: 0 <= i < 9 ==> Board(m.moves, m.challenger)[i] != Blank) &&
      !Tateti(Board(m.moves, m.challenger))
  {
    FullBoardIffNineMoves(m.moves, m.challenger);
  }

  /** Every move was made by the challenger or by the opponent. */
  ghost predicate ByParticipants(m: Match) {
    forall i :: 0 <= i < |m.moves| ==>
      Some(m.moves[i].player) == m.challenger || Some(m.moves[i].player) == m.opponent
  }

  /** The challenger made exactly the moves at even indices: the 1st, 3rd, 5th, ... */
  ghost predicate Alternating(m: Match) {
    forall i :: 0 <= i < |m.moves| ==> (Some(m.moves[i].player) == m.challenger <==> i % 2 == 0)
  }

  /** A created match has one move, by its challenger. */
  lemma CreatedAlternates(caller: PlayerId, pos: int, key: string)
    ensures Alternating(Created(caller, pos, key)) && ByParticipants(Created(caller, pos, key))
  {
  }

  /**
   * When only the two participants play, the turn check makes them
   * alternate: the challenger plays the odd-numbered plies and the
   * opponent the even-numbered ones.
   */
  lemma PlayKeepsAlternation(m: Match, caller: PlayerId, pos: int, key: string)
    requires |m.moves| > 0 && Alternating(m) && ByParticipants(m)
    requires Some(caller) == m.challenger || Some(caller) == m.opponent
    ensures Alternating(AfterPlay(Some(m), caller, pos, key).value)
    ensures ByParticipants(AfterPlay(Some(m), caller, pos, key).value)
  {
    var r := AfterPlay(Some(m), caller, pos, key).value;
    var n := |m.moves|;
    if r.moves != m.moves {
      var last := m.moves[n - 1];
      assert last.player != caller;
      if (n - 1) % 2 == 0 {
        assert Some(last.player) == m.challenger;
        assert Some(caller) != m.challenger;
      } else {
        assert Some(last.player) != m.challenger;
        assert Some(last.player) == m.opponent;
        assert Some(caller) == m.challenger;
      }
      forall i | 0 <= i < |r.moves|
        ensures Some(r.moves[i].player) == r.challenger <==> i % 2 == 0
      {
        if i < n { assert r.moves[i] == m.moves[i]; }
      }
    }
  }

  /**
   * The turn rule for two distinct participants of an alternating match:
   * it is the challenger's turn after an even number of moves and the
   * opponent's after an odd number.
   */
  lemma TurnOfParticipants(m: Match, caller: PlayerId)
    requires |m.moves| > 0 && Alternating(m) && ByParticipants(m)
    requires m.challenger.Some? && m.opponent.Some? && m.challenger != m.opponent
    requires Some(caller) == m.challenger || Some(caller) == m.opponent
    ensures IsMyTurn(Some(m), caller) <==>
      Some(caller) == (if |m.moves| % 2 == 0 then m.challenger else m.opponent)
  {
    var n := |m.moves|;
    var last := m.moves[n - 1];
    if n % 2 == 0 {
      assert Some(last.player) != m.challenger;
    } else {
      assert Some(last.player) == m.challenger;
    }
  }

  /** One tap of a list of taps: who tapped, and which cell. */
  datatype Tap = Tap(caller: PlayerId, position: int)

  /**
   * jugar applied to each tap in turn. Before each tap the tapping player's
   * screen has received the previous move, and that change reloads it:
   * the board is repainted and the outcome check may set the winner.
   */
  function PlayAll(m: Match, taps: seq<Tap>, key: string): (r: Match)
    requires |m.moves| > 0
    ensures |r.moves| >= |m.moves|
    decreases |taps|
  {
    if taps == [] then m
    else PlayAll(AfterPlay(Some(Settle(m)), taps[0].caller, taps[0].position, key).value, taps[1..], key)
  }

  /** The moves a list of taps records, in order. */
  function MovesOf(taps: seq<Tap>): seq<Move> {
    seq(|taps|, i requires 0 <= i < |taps| => Move(taps[i].position, taps[i].caller))
  }

  /** Each tap comes from somebody other than the one before it. */
  ghost predicate TakeTurns(lastPlayer: PlayerId, taps: seq<Tap>) {
    && (|taps| > 0 ==> taps[0].caller != lastPlayer)
    && forall i :: 0 < i < |taps| ==> taps[i].caller != taps[i - 1].caller
  }

  /** No line is won on the board before any of the taps. */
  ghost predicate NoLineWhileTapping(m: Match, taps: seq<Tap>) {
    forall i :: 0 <= i < |taps| ==> !Tateti(Board(m.moves + MovesOf(taps[..i]), m.challenger))
  }

  /** The moves of a tap list that starts with `t`. */
  lemma MovesOfPrepend(t: Tap, rest: seq<Tap>)
    ensures MovesOf([t] + rest) == [Move(t.position, t.caller)] + MovesOf(rest)
  {
    var taps := [t] + rest;
    forall i | 0 <= i < |taps| ensures MovesOf(taps)[i] == ([Move(t.position, t.caller)] + MovesOf(rest))[i] {
      if i > 0 { assert taps[i] == rest[i - 1]; }
    }
  }

  /** The moves before tap `i + 1` are the first tap's move and the moves of the rest before tap `i`. */
  lemma MovesBeforeTap(moves: seq<Move>, taps: seq<Tap>, i: nat)
    requires i < |taps|
    ensures moves + [Move(taps[0].position, taps[0].caller)] + MovesOf(taps[1..][..i]) ==
      moves + MovesOf(taps[..i + 1])
  {
    assert taps[..i + 1] == [taps[0]] + taps[1..][..i];
    MovesOfPrepend(taps[0], taps[1..][..i]);
  }

  /** Past the first tap, no line is won before the others either. */
  lemma NoLineAfterFirstTap(m: Match, taps: seq<Tap>)
    requires |taps| > 0 && NoLineWhileTapping(m, taps)
    ensures !Tateti(Board(m.moves, m.challenger))
    ensures NoLineWhileTapping(m.(moves := m.moves + [Move(taps[0].position, taps[0].caller)]), taps[1..])
  {
    assert m.moves + MovesOf(taps[..0]) == m.moves by {
      assert taps[..0] == [];
    }
    var move := Move(taps[0].position, taps[0].caller);
    forall i | 0 <= i < |taps| - 1
      ensures !Tateti(Board(m.moves + [move] + MovesOf(taps[1..][..i]), m.challenger))
    {
      MovesBeforeTap(m.moves, taps, i);
    }
  }

  /**
   * The first of the taps: the reload before it keeps an unwon match as it
   * is, the tap is accepted, and the remaining taps still take turns.
   */
  lemma FirstTapAccepted(m: Match, taps: seq<Tap>, key: string)
    requires |m.moves| > 0 && m.winner.None? && |taps| > 0
    requires TakeTurns(m.moves[|m.moves| - 1].player, taps)
    requires !Tateti(Board(m.moves, m.challenger))
    ensures AfterPlay(Some(Settle(m)), taps[0].caller, taps[0].position, key) ==
      Some(m.(moves := m.moves + [Move(taps[0].position, taps[0].caller)]))
    ensures TakeTurns(taps[0].caller, taps[1..])
  {
    assert Settle(m) == m;
    var rest := taps[1..];
    forall i | 0 < i < |rest| ensures rest[i].caller != rest[i - 1].caller {
      assert rest[i] == taps[i + 1] && rest[i - 1] == taps[i];
    }
  }

  /**
   * On a match nobody has won, taps that take turns are all accepted as
   * long as no line is won before any of them: the match ends up with
   * exactly their moves appended, in order, and the same players.
   */
  lemma {:induction false} TakingTurnsAppendsEveryMove(m: Match, taps: seq<Tap>, key: string)
    requires |m.moves| > 0 && m.winner.None?
    requires TakeTurns(m.moves[|m.moves| - 1].player, taps)
    requires NoLineWhileTapping(m, taps)
    ensures PlayAll(m, taps, key) == m.(moves := m.moves + MovesOf(taps))
    decreases |taps|
  {
    if taps == [] {
      assert m.moves + MovesOf(taps) == m.moves;
    } else {
      var next := m.(moves := m.moves + [Move(taps[0].position, taps[0].caller)]);
      NoLineAfterFirstTap(m, taps);
      FirstTapAccepted(m, taps, key);
      TakingTurnsAppendsEveryMove(next, taps[1..], key);
      MovesBeforeTap(m.moves, taps, |taps| - 1);
      assert taps[1..][..|taps| - 1] == taps[1..] && taps[..|taps|] == taps;
    }
  }

  /**
   * The other side: once a line is won, the reload that delivers the last
   * move names a winner, and the next tap, by anybody, is ignored.
   */
  lemma TapAfterLineIsIgnored(m: Match, caller: PlayerId, pos: int, key: string)
    requires WellFormed(m) && ByParticipants(m)
    requires m.challenger.Some? && m.challenger != m.opponent
    requires Tateti(Board(m.moves, m.challenger))
    ensures AfterPlay(Some(Settle(m)), caller, pos, key) == Some(Settle(m))
  {
    WinnerOwnsTheLine(m, FirstWonLine(Board(m.moves, m.challenger), 0).value);
  }

  /** A player never moves twice in a row: after an accepted tap it is not the caller's turn. */
  lemma NoTwoMovesInARow(m: Option<Match>, caller: PlayerId, pos: int, key: string)
    requires m.Some? ==> |m.value.moves| > 0
    ensures AfterPlay(m, caller, pos, key) != m ==> !IsMyTurn(AfterPlay(m, caller, pos, key), caller)
  {
  }

  /** Every cell of a won line shows the line's mark. */
  lemma CellOfWonLine(board: seq<Mark>, cells: seq<int>, p: int)
    requires |board| == 9 && |cells| == 3
    requires forall i :: 0 <= i < 3 ==> 1 <= cells[i] <= 9
    requires LineWon(board, cells) && p in cells
    ensures 1 <= p <= 9 && board[p - 1] == board[cells[0] - 1]
  {
    assert p == cells[0] || p == cells[1] || p == cells[2];
  }

  /** Every move on a won line left the line's mark. */
  lemma MovesOnWonLine(m: Match, k: nat, i: int)
    requires WellFormed(m) && k < 8 && LineWon(Board(m.moves, m.challenger), Line(k))
    requires 0 <= i < |m.moves| && m.moves[i].position in Line(k)
    ensures MarkOf(m.moves[i].player, m.challenger) == Board(m.moves, m.challenger)[Line(k)[0] - 1]
  {
    var p := m.moves[i].position;
    CellOfMove(m.moves, m.challenger, i);
    CellOfWonLine(Board(m.moves, m.challenger), Line(k), p);
  }

  /**
   * The owner of the winning line wins: when only the two participants
   * have played and `k` is the first won line, every move on that line was
   * made by one player, and the reload names that player winner.
   */
  lemma WinnerOwnsTheLine(m: Match, k: nat)
    requires WellFormed(m) && ByParticipants(m)
    requires m.challenger.Some? && m.challenger != m.opponent
    requires FirstWonLine(Board(m.moves, m.challenger), 0) == Some(k)
    ensures Settle(m).winner.Some?
    ensures forall i :: 0 <= i < |m.moves| && m.moves[i].position in Line(k) ==>
      Some(m.moves[i].player) == Settle(m).winner
  {
    var board := Board(m.moves, m.challenger);
    var mark := board[Line(k)[0] - 1];
    var winner := Claimed(Some(m), mark).value.winner;
    assert Settle(m).winner == winner;
    assert !Free(m.moves, Line(k)[0]);
    var i0 :| 0 <= i0 < |m.moves| && m.moves[i0].position == Line(k)[0];
    MovesOnWonLine(m, k, i0);
    assert winner.Some?;
    forall i | 0 <= i < |m.moves| && m.moves[i].position in Line(k)
      ensures Some(m.moves[i].player) == winner
    {
      MovesOnWonLine(m, k, i);
    }
  }

  /**
   * The challenger's three marks on the top row, 1-2-3, make them the
   * winner on the next reload, whatever the opponent played meanwhile:
   * that row is the first line hayTaTeTi tries.
   */
  lemma TopRowWinsForChallenger(m: Match, a: int, b: int, c: int)
    requires WellFormed(m) && m.challenger.Some?
    requires 0 <= a < |m.moves| && 0 <= b < |m.moves| && 0 <= c < |m.moves|
    requires m.moves[a].position == 1 && m.moves[b].position == 2 && m.moves[c].position == 3
    requires Some(m.moves[a].player) == m.challenger && Some(m.moves[b].player) == m.challenger
    requires Some(m.moves[c].player) == m.challenger
    ensures Settle(m).winner == m.challenger && OutcomeOf(m) == Won
  {
    var board := Board(m.moves, m.challenger);
    CellOfMove(m.moves, m.challenger, a);
    CellOfMove(m.moves, m.challenger, b);
    CellOfMove(m.moves, m.challenger, c);
    assert board[0] == X && board[1] == X && board[2] == X;
    assert LineWon(board, Line(0));
    assert FirstWonLine(board, 0) == Some(0);
  }

  /** Joining is done once: a second opening keeps the first opponent. */
  lemma SecondJoinKeepsFirstOpponent(m: Match, first: PlayerId, second: PlayerId)
    requires m.opponent.None?
    ensures Opened(Opened(m, first), second).opponent == Some(first)
  {
  }

  /**
   * Nothing stops the challenger from opening their own match before an
   * opponent joined: they then become its opponent as well.
   */
  lemma ChallengerCanJoinOwnMatch(m: Match)
    requires m.opponent.None? && m.challenger.Some?
    ensures Opened(m, m.challenger.value).opponent == m.challenger
  {
  }

  /** Reloading a match twice sets the same winner as reloading it once. */
  lemma SettleIdempotent(m: Match)
    ensures Settle(Settle(m)) == Settle(m)
  {
    var board := Board(m.moves, m.challenger);
    var once := Settle(m);
    assert once == m.(winner := once.winner);
    assert Board(once.moves, once.challenger) == board;
    match FirstWonLine(board, 0)
    case None =>
    case Some(j) =>
      var mark := board[Line(j)[0] - 1];
      assert once == Claimed(Some(m), mark).value;
      assert Settle(once) == Claimed(Some(once), mark).value;
  }
}

/** BoardController without its JavaFX view: which piece is selected, the move
    a click asks for, the turn flip and the two players' clocks. */
module Controller {
  import opened Wrappers
  import opened Rules
  import opened RuleFacts
  import Opening
  import opened Chess
  import opened Timers
  import opened JavaText

  /** What handleMove does on a click of `target` with the piece on `selected`
      chosen (None when no piece is): Some(true) when the move is made,
      Some(false) when nothing changes, None when isValidMove does not return
      (its first step reads the clicked tile, null off the board). */
  ghost function ClickOutcome(g: Grid, selected: Option<Pos>, target: Pos, fuel: nat): Option<bool>
    requires selected.Some? ==> selected.value in g
  {
    if selected.None? then Some(false)
    else if !InBounds(target) then None
    else ValidMove(g, selected.value, target, fuel)
  }

  /** The selection gate of handlePieceClick: the clicked square holds a piece
      of the side to move. */
  ghost predicate Selects(g: Grid, current: Player, target: Pos) {
    target in g && g[target].color == current
  }

  /** Every move processMove would make, the controller makes too: both first
      ask isValidMove of the piece on s. */
  lemma ClickAcceptsProcessedMoves(g: Grid, current: Player, s: Pos, e: Pos, fuel: nat)
    requires s in g
    ensures ProcessOutcome(g, current, s, e, fuel) == Some(true) ==> ClickOutcome(g, Some(s), e, fuel) == Some(true)
    ensures ProcessOutcome(g, current, s, e, fuel) == None && InBounds(s) ==> ClickOutcome(g, Some(s), e, fuel) != Some(false)
  {
    ProcessOutcomeSpec(g, current, s, e, fuel);
  }

  /** White's King on (7,4) behind its Knight on (6,4), pinned by Black's Queen
      on (0,4); no Black King. */
  function PinBoard(): Grid {
    map[Pos(0, 4) := Man(Queen, Black, false), Pos(6, 4) := Man(Knight, White, false), Pos(7, 4) := Man(King, White, false)]
  }

  /** The Knight taken off the file leaves its King in check from the Queen. */
  lemma PinnedKnightExposesKing(fuel: nat)
    ensures InCheck(Relocate(PinBoard(), Pos(6, 4), Pos(4, 5)), White, fuel) == Some(true)
  {
    var g := Relocate(PinBoard(), Pos(6, 4), Pos(4, 5));
    assert g == map[Pos(0, 4) := Man(Queen, Black, false), Pos(4, 5) := Man(Knight, White, false), Pos(7, 4) := Man(King, White, false)];
    FindKingSpec(g, White);
    assert IsKingOf(g, Pos(7, 4), White);
    assert FindKing(g, White) == Some(Pos(7, 4));
    Opening.CheckFromSkip(g, White, Some(Pos(7, 4)), fuel, 0, 0, 0, 4);
    QueenRuleSpec(g, g[Pos(0, 4)], Pos(0, 4), Pos(7, 4));
    assert SegmentClear(g, Pos(0, 4), Pos(7, 4));
  }

  /** Moves go through makeMove, not processMove, so nothing stops a pinned
      piece: the controller moves the Knight off the file, leaving White's King
      in check, a move processMove refuses. */
  lemma PinnedPieceMoves(fuel: nat)
    ensures ClickOutcome(PinBoard(), Some(Pos(6, 4)), Pos(4, 5), fuel) == Some(true)
    ensures ProcessOutcome(PinBoard(), White, Pos(6, 4), Pos(4, 5), fuel) == Some(false)
  {
    assert KnightJump(Pos(6, 4), Pos(4, 5));
    PinnedKnightExposesKing(fuel);
  }

  class BoardController {
    const board: Board
    var selectedPiece: Piece?
    var currentPlayer: Player
    var whiteTimer: ChessTimer?
    var blackTimer: ChessTimer?

    /** The board is valid and to move as the controller thinks, and a selected
        piece is on the board, on the tile of its own position, and of the
        side to move. */
    ghost predicate Valid()
      reads this, board, board.grid, board.tiles, board.men
    {
      && Synced()
      && (selectedPiece != null ==>
            && selectedPiece in board.men
            && InBounds(selectedPiece.position)
            && board.grid[selectedPiece.position.row, selectedPiece.position.col].piece == selectedPiece
            && selectedPiece.position in board.contents
            && selectedPiece.color == currentPlayer)
    }

    /** The board is valid and the controller's side to move is the board's. */
    ghost predicate Synced()
      reads this, board, board.grid, board.tiles, board.men
    {
      board.Valid() && currentPlayer == board.currentPlayer
    }

    /** The square of the selected piece, None when none is selected. */
    ghost function SelectedSquare(): Option<Pos>
      reads this, selectedPiece
    {
      if selectedPiece == null then None else Some(selectedPiece.position)
    }

    /** The timer of player c. */
    function TimerOf(c: Player): ChessTimer?
      reads this
    {
      if c == White then whiteTimer else blackTimer
    }

    /** The clocks after switchPlayer with c to move: White's timer is told
        first and Black's second, so when both fields hold the same timer the
        second call decides. */
    ghost predicate ClocksFollow(c: Player)
      reads this, whiteTimer, blackTimer
    {
      && (blackTimer != null ==> blackTimer.isActive == (c == Black))
      && (whiteTimer != null && whiteTimer != blackTimer ==> whiteTimer.isActive == (c == White))
    }

    /** A new controller: a new board, nothing selected, White to move, no
        timers. */
    constructor ()
      ensures Valid() && fresh(board) && board.contents == InitialGrid()
      ensures selectedPiece == null && currentPlayer == White && whiteTimer == null && blackTimer == null
    {
      board := new Board();
      selectedPiece := null;
      currentPlayer := White;
      whiteTimer := null;
      blackTimer := null;
    }

    method SetTimers(whiteTimer: ChessTimer?, blackTimer: ChessTimer?)
      modifies this`whiteTimer, this`blackTimer
      ensures this.whiteTimer == whiteTimer && this.blackTimer == blackTimer
    {
      this.whiteTimer := whiteTimer;
      this.blackTimer := blackTimer;
    }

    /** switchPlayer: the board's side to move flips, the controller copies it,
        and the clock of the side now to move runs while the other stops. */
    method SwitchPlayer()
      requires Synced()
      modifies this`currentPlayer, board`currentPlayer, whiteTimer, blackTimer
      ensures Synced()
      ensures currentPlayer == Opponent(old(currentPlayer))
      ensures ClocksFollow(currentPlayer)
      ensures whiteTimer != null ==>
        whiteTimer.remainingTime == old(whiteTimer.remainingTime) && whiteTimer.increment == old(whiteTimer.increment)
      ensures blackTimer != null ==>
        blackTimer.remainingTime == old(blackTimer.remainingTime) && blackTimer.increment == old(blackTimer.increment)
    {
      board.SwitchPlayer();
      currentPlayer := board.GetCurrentPlayer();
      StartClock();
    }

    /** The timer calls of switchPlayer, null timers skipped. */
    method StartClock()
      modifies whiteTimer, blackTimer
      ensures ClocksFollow(currentPlayer)
      ensures whiteTimer != null ==>
        whiteTimer.remainingTime == old(whiteTimer.remainingTime) && whiteTimer.increment == old(whiteTimer.increment)
      ensures blackTimer != null ==>
        blackTimer.remainingTime == old(blackTimer.remainingTime) && blackTimer.increment == old(blackTimer.increment)
    {
      if currentPlayer == White {
        if whiteTimer != null {
          whiteTimer.Activate();
        }
        if blackTimer != null {
          blackTimer.Deactivate();
        }
      } else {
        if whiteTimer != null {
          whiteTimer.Deactivate();
        }
        if blackTimer != null {
          blackTimer.Activate();
        }
      }
    }

    /** addIncrementToTimer, called once the turn has passed: the player who
        has just moved, the one not to move now, is credited. */
    method AddIncrementToTimer()
      modifies whiteTimer, blackTimer
      ensures var t := TimerOf(Opponent(currentPlayer));
        t != null ==> t.remainingTime == Wrap32(old(t.remainingTime) as int + t.increment as int)
      ensures var t, u := TimerOf(Opponent(currentPlayer)), TimerOf(currentPlayer);
        u != null && u != t ==> u.remainingTime == old(u.remainingTime)
      ensures whiteTimer != null ==>
        whiteTimer.isActive == old(whiteTimer.isActive) && whiteTimer.increment == old(whiteTimer.increment)
      ensures blackTimer != null ==>
        blackTimer.isActive == old(blackTimer.isActive) && blackTimer.increment == old(blackTimer.increment)
    {
      if currentPlayer == White {
        if blackTimer != null {
          blackTimer.AddIncrement();
        }
      } else {
        if whiteTimer != null {
          whiteTimer.AddIncrement();
        }
      }
    }

    /** The switchPlayer and addIncrementToTimer calls of movePiece: the turn
        passes and the player who has just moved is credited. */
    method PassTurn()
      requires Synced()
      modifies this`currentPlayer, board`currentPlayer, whiteTimer, blackTimer
      ensures Synced()
      ensures currentPlayer == Opponent(old(currentPlayer)) && ClocksFollow(currentPlayer)
      ensures var t := TimerOf(old(currentPlayer));
        t != null ==> t.remainingTime == Wrap32(old(t.remainingTime) as int + old(t.increment) as int)
      ensures var t, u := TimerOf(old(currentPlayer)), TimerOf(currentPlayer);
        u != null && u != t ==> u.remainingTime == old(u.remainingTime)
    {
      SwitchPlayer();
      AddIncrementToTimer();
    }

    /** movePiece without the view update: makeMove from the piece's own square
        (which always succeeds), the position set again, the turn passed, the
        mover's clock credited, and the selection dropped. */
    method MovePiece(piece: Piece, newPosition: Pos)
      requires Synced() && piece in board.men && InBounds(piece.position) && InBounds(newPosition)
      requires board.grid[piece.position.row, piece.position.col].piece == piece
      modifies this`selectedPiece, this`currentPlayer, board, board.tiles, board.men, whiteTimer, blackTimer
      ensures Synced() && selectedPiece == null
      ensures board.contents == AfterMove(old(board.contents), old(piece.position), newPosition)
      ensures board.capturedPieces == old(board.capturedPieces + board.Occupant(newPosition))
      ensures board.notified == old(board.notified + if board.hasListener then board.Occupant(newPosition) else [])
      ensures board.grid[newPosition.row, newPosition.col].piece == piece && piece.position == newPosition
      ensures currentPlayer == Opponent(old(currentPlayer)) && ClocksFollow(currentPlayer)
      ensures var t := TimerOf(old(currentPlayer));
        t != null ==> t.remainingTime == Wrap32(old(t.remainingTime) as int + old(t.increment) as int)
      ensures var t, u := TimerOf(old(currentPlayer)), TimerOf(currentPlayer);
        u != null && u != t ==> u.remainingTime == old(u.remainingTime)
    {
      var moved := MoveOnBoard(piece, newPosition);
      if moved {
        PassTurn();
      }
      selectedPiece := null;
    }

    /** The board half of movePiece: makeMove from the piece's own square,
        then setPosition, which tells the piece the square makeMove has already
        given it. */
    method MoveOnBoard(piece: Piece, newPosition: Pos) returns (moved: bool)
      requires Synced() && piece in board.men && InBounds(piece.position) && InBounds(newPosition)
      requires board.grid[piece.position.row, piece.position.col].piece == piece
      modifies board, board.tiles, board.men
      ensures Synced() && moved
      ensures board.contents == AfterMove(old(board.contents), old(piece.position), newPosition)
      ensures board.capturedPieces == old(board.capturedPieces + board.Occupant(newPosition))
      ensures board.notified == old(board.notified + if board.hasListener then board.Occupant(newPosition) else [])
      ensures board.grid[newPosition.row, newPosition.col].piece == piece && piece.position == newPosition
    {
      var originalPosition := piece.GetPosition();
      moved := board.MakeMove(originalPosition, newPosition);
      if moved {
        piece.SetPosition(newPosition);
      }
    }

    /** handleMove on a click of (row, col): with a piece selected, the piece
        is asked whether it may move from its own tile to the clicked one, and
        moved if so.  Only the side to move's pieces are ever moved. */
    method HandleMove(row: int, col: int, fuel: nat) returns (r: Option<bool>)
      requires Valid()
      modifies this`selectedPiece, this`currentPlayer, board, board.tiles, board.men, whiteTimer, blackTimer
      ensures board.Wf()
      ensures r == ClickOutcome(old(board.contents), old(SelectedSquare()), Pos(row, col), fuel)
      ensures r.Some? ==> Valid()
      ensures r == Some(false) ==>
        && board.contents == old(board.contents) && unchanged(board.tiles)
        && board.capturedPieces == old(board.capturedPieces) && board.notified == old(board.notified)
        && selectedPiece == old(selectedPiece) && currentPlayer == old(currentPlayer)
        && (whiteTimer != null ==> unchanged(whiteTimer)) && (blackTimer != null ==> unchanged(blackTimer))
      ensures r == Some(true) ==>
        && old(SelectedSquare()).Some? && InBounds(Pos(row, col))
        && old(board.contents)[old(SelectedSquare()).value].color == old(currentPlayer)
        && board.contents == AfterMove(old(board.contents), old(SelectedSquare()).value, Pos(row, col))
        && board.capturedPieces == old(board.capturedPieces + board.Occupant(Pos(row, col)))
        && board.notified == old(board.notified + if board.hasListener then board.Occupant(Pos(row, col)) else [])
        && selectedPiece == null && currentPlayer == Opponent(old(currentPlayer))
        && ClocksFollow(currentPlayer)
      ensures var t := TimerOf(old(currentPlayer));
        r == Some(true) && t != null ==> t.remainingTime == Wrap32(old(t.remainingTime) as int + old(t.increment) as int)
      ensures var t, u := TimerOf(old(currentPlayer)), TimerOf(currentPlayer);
        r == Some(true) && u != null && u != t ==> u.remainingTime == old(u.remainingTime)
    {
      if selectedPiece != null {
        var newPosition := Pos(row, col);
        var startTile := board.GetTile(selectedPiece.GetPosition().row, selectedPiece.GetPosition().col);
        var endTile := board.GetTile(row, col);
        if endTile == null {
          return None;
        }
        var valid := selectedPiece.IsValidMove(board, startTile, endTile, fuel);
        if valid.None? {
          return None;
        }
        if valid.value {
          MovePiece(selectedPiece, newPosition);
          return Some(true);
        }
        return Some(false);
      }
      return Some(false);
    }

    /** handlePieceClick without the highlighting: the click is first handled
        as a move, and then the clicked piece is selected if it belongs to the
        side to move.  A click off the board meets a null tile. */
    method PieceClicked(row: int, col: int, fuel: nat) returns (r: Option<bool>)
      requires Valid()
      modifies this`selectedPiece, this`currentPlayer, board, board.tiles, board.men, whiteTimer, blackTimer
      ensures board.Wf()
      ensures r.Some? ==> InBounds(Pos(row, col)) && Valid()
      ensures InBounds(Pos(row, col)) ==>
        r == ClickOutcome(old(board.contents), old(SelectedSquare()), Pos(row, col), fuel)
      ensures r.Some? && Selects(board.contents, currentPlayer, Pos(row, col)) ==>
        selectedPiece == board.grid[row, col].piece
      ensures r.Some? && !Selects(board.contents, currentPlayer, Pos(row, col)) ==>
        selectedPiece == if r.value then null else old(selectedPiece)
      ensures r == Some(false) ==>
        && board.contents == old(board.contents) && unchanged(board.tiles)
        && board.capturedPieces == old(board.capturedPieces) && board.notified == old(board.notified)
        && currentPlayer == old(currentPlayer)
        && (whiteTimer != null ==> unchanged(whiteTimer)) && (blackTimer != null ==> unchanged(blackTimer))
      ensures r == Some(true) ==>
        && old(SelectedSquare()).Some?
        && board.contents == AfterMove(old(board.contents), old(SelectedSquare()).value, Pos(row, col))
        && board.capturedPieces == old(board.capturedPieces + board.Occupant(Pos(row, col)))
        && board.notified == old(board.notified + if board.hasListener then board.Occupant(Pos(row, col)) else [])
        && currentPlayer == Opponent(old(currentPlayer)) && ClocksFollow(currentPlayer)
      ensures var t := TimerOf(old(currentPlayer));
        r == Some(true) && t != null ==> t.remainingTime == Wrap32(old(t.remainingTime) as int + old(t.increment) as int)
      ensures var t, u := TimerOf(old(currentPlayer)), TimerOf(currentPlayer);
        r == Some(true) && u != null && u != t ==> u.remainingTime == old(u.remainingTime)
    {
      r := HandleMove(row, col, fuel);
      if r.None? {
        return;
      }
      ghost var moved := r.value;
      assert moved ==> r == Some(true) && selectedPiece == null;
      assert !moved ==> r == Some(false) && selectedPiece == old(selectedPiece);
      var tile := board.GetTile(row, col);
      if tile == null {
        return None;
      }
      var piece := tile.GetPiece();
      assert Selects(board.contents, currentPlayer, Pos(row, col)) <==> piece != null && piece.color == currentPlayer;
      if piece != null && piece.GetPlayer() == board.GetCurrentPlayer() {
        selectedPiece := piece;
      }
    }
  }
}

/** getPotentialMoves of the six pieces: the squares each one offers, before
    isValidMove is asked about them.  These read only the piece's own position
    (and, for a Pawn, its colour and hasMoved flag), never the board. */
module Moves {
  import opened Wrappers
  import opened Rules
  import opened RuleFacts
  import opened Opening

  /** The King's eight steps, in the order of King.getPotentialMoves. */
  const KingSteps: seq<(int, int)> := [(-1, -1), (-1, 0), (-1, 1), (0, -1), (0, 1), (1, -1), (1, 0), (1, 1)]

  /** The Knight's eight jumps, in the order of Knight.getPotentialMoves. */
  const KnightJumps: seq<(int, int)> := [(-2, 1), (-2, -1), (2, -1), (2, 1), (1, -2), (-1, -2), (1, 2), (-1, 2)]

  /** The four diagonal directions of Bishop and Queen, in their order. */
  const Diagonals: seq<(int, int)> := [(-1, -1), (-1, 1), (1, -1), (1, 1)]

  function Shift(p: Pos, d: (int, int)): Pos {
    Pos(p.row + d.0, p.col + d.1)
  }

  /** Pawn.isMoveWithinBoard: the same test as the board's own bounds. */
  predicate IsMoveWithinBoard(row: int, column: int): (within: bool)
    ensures within <==> InBounds(Pos(row, column))
  {
    row >= 0 && row < 8 && column >= 0 && column < 8
  }

  predicate DiagonalStep(dr: int, dc: int) {
    (dr == 1 || dr == -1) && (dc == 1 || dc == -1)
  }

  /** Square q lies on the diagonal ray leaving p in direction (dr, dc). */
  predicate OnRay(p: Pos, dr: int, dc: int, q: Pos) {
    q != p && Diagonal(p, q) && Compare(q.row, p.row) == dr && Compare(q.col, p.col) == dc
  }

  /** Square q shares p's row or column, is not p, and its other coordinate is
      on the board. */
  predicate OnLine(p: Pos, q: Pos) {
    q != p && ((q.col == p.col && 0 <= q.row < 8) || (q.row == p.row && 0 <= q.col < 8))
  }

  /** The squares Pawn.getPotentialMoves may offer. */
  predicate PawnTarget(p: Pos, c: Player, hasMoved: bool, q: Pos) {
    InBounds(q) &&
    (PawnAdvance(p, q, c) ||
     (PawnDoubleAdvance(p, q, c) && !hasMoved && InBounds(Pos(p.row + Direction(c), p.col))) ||
     PawnDiagonal(p, q, c))
  }

  /** Pawn.getPotentialMoves: one step forward, two for an unmoved pawn whose
      one-step square is on the board, and the two forward diagonals, each
      kept when on the board. */
  method PawnMoves(p: Pos, c: Player, hasMoved: bool) returns (moves: seq<Pos>)
    ensures |moves| <= 4
    ensures forall q :: q in moves <==> PawnTarget(p, c, hasMoved, q)
  {
    moves := [];
    var row, column := p.row, p.col;
    var direction := if c == White then -1 else 1;
    if IsMoveWithinBoard(row + direction, column) {
      moves := moves + [Pos(row + direction, column)];
      if !hasMoved && IsMoveWithinBoard(row + 2 * direction, column) {
        moves := moves + [Pos(row + 2 * direction, column)];
      }
    }
    if IsMoveWithinBoard(row + direction, column + 1) {
      moves := moves + [Pos(row + direction, column + 1)];
    }
    if IsMoveWithinBoard(row + direction, column - 1) {
      moves := moves + [Pos(row + direction, column - 1)];
    }
  }

  /** The loop of Knight.getPotentialMoves and King.getPotentialMoves: p moved
      by each offset in turn, kept when on the board. */
  method OffsetMoves(p: Pos, offsets: seq<(int, int)>) returns (moves: seq<Pos>)
    ensures |moves| <= |offsets|
    ensures forall q :: q in moves <==> InBounds(q) && exists k :: 0 <= k < |offsets| && q == Shift(p, offsets[k])
  {
    moves := [];
    for k := 0 to |offsets|
      invariant |moves| <= k
      invariant forall q :: q in moves <==> InBounds(q) && exists j :: 0 <= j < k && q == Shift(p, offsets[j])
    {
      var nextRow := p.row + offsets[k].0;
      var nextColumn := p.col + offsets[k].1;
      if nextRow >= 0 && nextRow < 8 && nextColumn >= 0 && nextColumn < 8 {
        moves := moves + [Pos(nextRow, nextColumn)];
      }
    }
  }

  lemma KnightJumpsCover(p: Pos, q: Pos)
    ensures (exists k :: 0 <= k < |KnightJumps| && q == Shift(p, KnightJumps[k])) <==> KnightJump(p, q)
  {
    if KnightJump(p, q) {
      var d := (q.row - p.row, q.col - p.col);
      assert d in KnightJumps;
      var k :| 0 <= k < |KnightJumps| && KnightJumps[k] == d;
      assert q == Shift(p, KnightJumps[k]);
    }
  }

  lemma KingStepsCover(p: Pos, q: Pos)
    ensures (exists k :: 0 <= k < |KingSteps| && q == Shift(p, KingSteps[k])) <==> KingStep(p, q)
  {
    if KingStep(p, q) {
      var d := (q.row - p.row, q.col - p.col);
      assert d in KingSteps;
      var k :| 0 <= k < |KingSteps| && KingSteps[k] == d;
      assert q == Shift(p, KingSteps[k]);
    }
  }

  /** Knight.getPotentialMoves: at most eight squares, exactly the squares on
      the board a knight's jump away, which is the geometry isValidMove tests. */
  method KnightMoves(p: Pos) returns (moves: seq<Pos>)
    ensures |moves| <= 8
    ensures forall q :: q in moves <==> InBounds(q) && KnightJump(p, q)
  {
    moves := OffsetMoves(p, KnightJumps);
    forall q
      ensures q in moves <==> InBounds(q) && KnightJump(p, q)
    {
      KnightJumpsCover(p, q);
    }
  }

  /** King.getPotentialMoves: at most eight squares, exactly the squares on the
      board at Chebyshev distance one. */
  method KingMoves(p: Pos) returns (moves: seq<Pos>)
    ensures |moves| <= 8
    ensures forall q :: q in moves <==> InBounds(q) && KingStep(p, q)
  {
    moves := OffsetMoves(p, KingSteps);
    forall q
      ensures q in moves <==> InBounds(q) && KingStep(p, q)
    {
      KingStepsCover(p, q);
    }
  }

  /** The for loop of Rook.getPotentialMoves and Queen.getPotentialMoves: the
      column, then the row, square by square, skipping p.  From a square on the
      board that is fourteen squares. */
  method LineMoves(p: Pos) returns (moves: seq<Pos>)
    ensures forall q :: q in moves <==> OnLine(p, q)
    ensures |moves| == 16 - (if 0 <= p.row < 8 then 1 else 0) - (if 0 <= p.col < 8 then 1 else 0)
    ensures InBounds(p) ==> |moves| == 14
  {
    moves := [];
    var currentRow, currentColumn := p.row, p.col;
    for i := 0 to 8
      invariant forall q :: q in moves <==>
        q != p && ((q.col == p.col && 0 <= q.row < i) || (q.row == p.row && 0 <= q.col < i))
      invariant |moves| == 2 * i - (if 0 <= p.row < i then 1 else 0) - (if 0 <= p.col < i then 1 else 0)
    {
      if i != currentRow {
        moves := moves + [Pos(i, currentColumn)];
      }
      if i != currentColumn {
        moves := moves + [Pos(currentRow, i)];
      }
    }
  }

  /** The while (true) loop of Bishop.getPotentialMoves and
      Queen.getPotentialMoves for one direction: step from p until the board
      ends, adding each square.  From a square on the board it adds the whole
      ray. */
  method RayMoves(p: Pos, dr: int, dc: int, moves0: seq<Pos>) returns (moves: seq<Pos>)
    requires DiagonalStep(dr, dc)
    ensures forall q :: q in moves0 ==> q in moves
    ensures forall q :: q in moves ==> q in moves0 || (InBounds(q) && OnRay(p, dr, dc, q))
    ensures InBounds(p) ==> forall q :: InBounds(q) && OnRay(p, dr, dc, q) ==> q in moves
  {
    moves := moves0;
    var nextRow, nextColumn := p.row, p.col;
    ghost var n := 0;
    while true
      invariant n >= 0
      invariant (dr == 1 ==> nextRow == p.row + n) && (dr == -1 ==> nextRow == p.row - n)
      invariant (dc == 1 ==> nextColumn == p.col + n) && (dc == -1 ==> nextColumn == p.col - n)
      invariant n > 0 ==> InBounds(Pos(nextRow, nextColumn))
      invariant forall q :: q in moves0 ==> q in moves
      invariant forall q :: q in moves ==> q in moves0 || (InBounds(q) && OnRay(p, dr, dc, q))
      invariant forall q :: InBounds(q) && OnRay(p, dr, dc, q) && Abs(q.row - p.row) <= n ==> q in moves
      decreases if dr > 0 then 8 - nextRow else nextRow + 1
    {
      nextRow := nextRow + dr;
      nextColumn := nextColumn + dc;
      n := n + 1;
      if nextRow >= 0 && nextRow < 8 && nextColumn >= 0 && nextColumn < 8 {
        moves := moves + [Pos(nextRow, nextColumn)];
        forall q | InBounds(q) && OnRay(p, dr, dc, q) && Abs(q.row - p.row) <= n
          ensures q in moves
        {
          RayNext(p, dr, dc, n - 1, q);
        }
      } else {
        break;
      }
    }
  }

  /** A square on a ray at most n + 1 steps out is either at most n steps out
      or the square n + 1 steps out. */
  lemma RayNext(p: Pos, dr: int, dc: int, n: nat, q: Pos)
    requires DiagonalStep(dr, dc) && OnRay(p, dr, dc, q) && Abs(q.row - p.row) <= n + 1
    ensures Abs(q.row - p.row) <= n ||
            q == Pos(p.row + (if dr > 0 then n + 1 else -(n as int) - 1), p.col + (if dc > 0 then n + 1 else -(n as int) - 1))
  {
  }

  /** A square diagonal to p, other than p, lies on one of the four rays. */
  lemma DiagonalsCover(p: Pos, q: Pos)
    requires q != p && Diagonal(p, q)
    ensures exists j :: 0 <= j < |Diagonals| && OnRay(p, Diagonals[j].0, Diagonals[j].1, q)
  {
    var d := (Compare(q.row, p.row), Compare(q.col, p.col));
    assert d in Diagonals;
    var j :| 0 <= j < |Diagonals| && Diagonals[j] == d;
    assert OnRay(p, Diagonals[j].0, Diagonals[j].1, q);
  }

  /** The diagonal loops of Bishop.getPotentialMoves and
      Queen.getPotentialMoves, appended to `moves0`: only squares on the board
      diagonal to p and not p; from a square on the board, all of them. */
  method DiagonalMoves(p: Pos, moves0: seq<Pos>) returns (moves: seq<Pos>)
    ensures forall q :: q in moves0 ==> q in moves
    ensures forall q :: q in moves ==> q in moves0 || (InBounds(q) && q != p && Diagonal(p, q))
    ensures InBounds(p) ==> forall q :: InBounds(q) && q != p && Diagonal(p, q) ==> q in moves
  {
    moves := moves0;
    for k := 0 to |Diagonals|
      invariant forall q :: q in moves0 ==> q in moves
      invariant forall q :: q in moves ==> q in moves0 || (InBounds(q) && q != p && Diagonal(p, q))
      invariant InBounds(p) ==>
        forall q, j :: 0 <= j < k && InBounds(q) && OnRay(p, Diagonals[j].0, Diagonals[j].1, q) ==> q in moves
    {
      moves := RayMoves(p, Diagonals[k].0, Diagonals[k].1, moves);
    }
    if InBounds(p) {
      forall q | InBounds(q) && q != p && Diagonal(p, q)
        ensures q in moves
      {
        DiagonalsCover(p, q);
      }
    }
  }

  /** Bishop.getPotentialMoves: only squares on the board diagonal to p, never
      p itself; from a square on the board, all of them. */
  method BishopMoves(p: Pos) returns (moves: seq<Pos>)
    ensures forall q :: q in moves ==> InBounds(q) && q != p && Diagonal(p, q)
    ensures InBounds(p) ==> forall q :: InBounds(q) && q != p && Diagonal(p, q) ==> q in moves
  {
    moves := DiagonalMoves(p, []);
  }

  /** Rook.getPotentialMoves: the fourteen squares sharing p's row or column. */
  method RookMoves(p: Pos) returns (moves: seq<Pos>)
    ensures forall q :: q in moves <==> OnLine(p, q)
    ensures InBounds(p) ==> |moves| == 14
  {
    moves := LineMoves(p);
  }

  /** Queen.getPotentialMoves: the row and column squares, then the diagonals;
      from a square on the board, exactly the squares on the board in a queen's
      line from p. */
  method QueenMoves(p: Pos) returns (moves: seq<Pos>)
    ensures forall q :: q in moves ==> q != p && (OnLine(p, q) || (InBounds(q) && Diagonal(p, q)))
    ensures InBounds(p) ==> forall q :: q in moves <==> InBounds(q) && q != p && (Straight(p, q) || Diagonal(p, q))
  {
    moves := LineMoves(p);
    moves := DiagonalMoves(p, moves);
  }

  /** The squares getPotentialMoves offers a piece m standing on s, by kind. */
  predicate PotentialTarget(m: Man, s: Pos, e: Pos) {
    match m.kind
    case Pawn => PawnTarget(s, m.color, m.hasMoved, e)
    case Knight => InBounds(e) && KnightJump(s, e)
    case Bishop => InBounds(e) && e != s && Diagonal(s, e)
    case Rook => OnLine(s, e)
    case Queen => e != s && (OnLine(s, e) || (InBounds(e) && Diagonal(s, e)))
    case King => InBounds(e) && KingStep(s, e)
  }

  /** From a square on the board, the Rook and Queen lines are the squares on
      the board sharing a row or a column: the geometry isValidMove tests. */
  lemma OnLineStraight(s: Pos, e: Pos)
    requires InBounds(s)
    ensures OnLine(s, e) <==> InBounds(e) && e != s && Straight(s, e)
  {
  }

  /** getPotentialMoves agrees with isValidMove for the five pieces other than
      the King: every move isValidMove accepts between squares on the board is
      one getPotentialMoves offers. */
  lemma AcceptedMovesArePotential(g: Grid, m: Man, s: Pos, e: Pos)
    requires InBounds(s) && InBounds(e) && Own(g, s, m.color) && m.kind != King
    requires PieceRule(g, m, s, e)
    ensures PotentialTarget(m, s, e)
  {
    OnLineStraight(s, e);
  }

  /** The King's isValidMove decides a one-square move by the attack test and
      accepts it only on a King step: among such moves it accepts only ones
      getPotentialMoves offers. */
  lemma AcceptedKingStepsArePotential(g: Grid, s: Pos, e: Pos, fuel: nat)
    requires InBounds(s) && InBounds(e) && s in g && g[s].kind == King
    requires Abs(s.row - e.row) <= 1 && Abs(s.col - e.col) <= 1
    requires KingMove(g, s, e, fuel) == Some(true)
    ensures PotentialTarget(g[s], s, e)
  {
  }

  /** White's King on (7,4), checked by Black's Rook on (0,4), with no Black
      King on the board. */
  function LeapBoard(): Grid {
    map[Pos(7, 4) := Man(King, White, false), Pos(0, 4) := Man(Rook, Black, false)]
  }

  lemma LeapBoardInCheck()
    ensures InCheck(LeapBoard(), White, 0) == Some(true)
  {
    var g := LeapBoard();
    FindKingSpec(g, White);
    assert IsKingOf(g, Pos(7, 4), White);
    assert FindKing(g, White) == Some(Pos(7, 4));
    CheckFromSkip(g, White, Some(Pos(7, 4)), 0, 0, 0, 0, 4);
    RookRuleIgnoresPath(g, g[Pos(0, 4)], Pos(0, 4), Pos(7, 4));
  }

  lemma LeapBoardAfterNotInCheck()
    ensures InCheck(Relocate(LeapBoard(), Pos(7, 4), Pos(7, 7)), White, 0) == Some(false)
  {
    var g := Relocate(LeapBoard(), Pos(7, 4), Pos(7, 7));
    assert g == map[Pos(7, 7) := Man(King, White, false), Pos(0, 4) := Man(Rook, Black, false)];
    FindKingSpec(g, White);
    assert IsKingOf(g, Pos(7, 7), White);
    assert FindKing(g, White) == Some(Pos(7, 7));
    RookRuleIgnoresPath(g, g[Pos(0, 4)], Pos(0, 4), Pos(7, 7));
    assert ValidMove(g, Pos(0, 4), Pos(7, 7), 0) == Some(false);
    var k := Some(Pos(7, 7));
    CheckFromSkip(g, White, k, 0, 0, 0, 0, 4);
    assert CheckFrom(g, White, k, 0, 0, 4) == CheckFrom(g, White, k, 0, 0, 5);
    CheckFromSkip(g, White, k, 0, 0, 5, 7, 7);
    assert CheckFrom(g, White, k, 0, 7, 7) == CheckFrom(g, White, k, 0, 7, 8) == Some(false);
  }

  /** The other way round the two disagree for the King: a King in check may
      be accepted for a move of more than one square that getPotentialMoves
      never offers, such as (7,4) to (7,7) on LeapBoard. */
  lemma KingLeavesCheckBeyondPotential()
    ensures KingMove(LeapBoard(), Pos(7, 4), Pos(7, 7), 1) == Some(true)
    ensures !PotentialTarget(LeapBoard()[Pos(7, 4)], Pos(7, 4), Pos(7, 7))
  {
    LeapBoardInCheck();
    LeapBoardAfterNotInCheck();
  }
}
